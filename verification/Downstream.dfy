/** The container side of a sync: it remembers the state it last told the client, folds watch events into a
    set of changed paths, and either patches its memory at these paths or walks the whole tree again. */
module Downstream {
  import opened Paths
  import opened Walk
  import opened ChangeStreaming
  import opened Wrappers

  const RESCAN_PERIOD := 15 * 60
  const EVENT_CAPACITY := 1000

  // ---------------------------------------------------------------------------------------------
  // Specification of the single operations
  // ---------------------------------------------------------------------------------------------

  /** The server's memory: what the client was told, what changed since, and when everything was last walked. */
  datatype Tracker = Tracker(watched: Option<FileState>, changes: set<string>, lastRescan: Option<int>)

  predicate Covered(paths: set<string>, k: string) {
    exists c :: c in paths && Covers(c, k)
  }

  /** The paths of watch events lie at or below the base. */
  predicate Under(base: string, c: string) {
    Covers(base, TrimSlash(c))
  }

  /** A watch event, handled while `queued` further events are waiting. */
  function Handled(t: Tracker, event: string, queued: nat): Tracker {
    if queued >= EVENT_CAPACITY - 1 then t.(lastRescan := None)
    else if exists p :: p in t.changes && Above(p, event) then t
    else t.(changes := t.changes + {event})
  }

  /** Dropping an event below an already recorded path does not change which paths are covered. */
  lemma SuppressionKeepsCoverage(t: Tracker, event: string, queued: nat, k: string)
    requires queued < EVENT_CAPACITY - 1
    ensures Covered(Handled(t, event, queued).changes, k) <==> Covered(t.changes + {event}, k)
  {
    if p :| p in t.changes && Above(p, event) {
      if Covers(event, k) {
        AboveTransitive(p, event, k);
      }
    }
  }

  /** What os.Stat finds at `p`, which may be the base itself. */
  function StatOf(s: Scan, p: string): Option<Stat> {
    if p == s.base then Some(DirStat) else if p in s.fs then Some(s.fs[p]) else None
  }

  /** The entries that marking `p` as changed throws away: decided by the old state alone. */
  predicate Dirtied(watched: FileState, p: string, k: string) {
    p in watched && (k == p || (watched[p].isDir && Above(p, k)))
  }

  /** The entries that looking at `p` puts in. */
  ghost function Found(s: Scan, p: string): FileState
    requires s.Valid() && s.base <= p
  {
    match StatOf(s, p)
    case None => map[]
    case Some(stat) =>
      var ignored := Ignored(s.base, s.matcher, p, stat.DirStat?);
      if ignored && !s.matcher.value.requireFullScan then map[]
      else
        (if ignored then map[] else map[p := Entry(p, stat)])
        + (if stat.DirStat? then s.Walked(p) else map[])
  }

  /** Whatever looking at a path puts in is what is there; the base counts as a directory. */
  lemma FoundDescribes(s: Scan, p: string, k: string)
    requires s.Valid() && s.base <= p && k in Found(s, p)
    ensures if k == s.base then Describes(Found(s, p)[k], k, DirStat)
            else k in s.fs && Describes(Found(s, p)[k], k, s.fs[k])
  {
  }

  ghost function Applied(s: Scan, watched: FileState, state: FileState, fullPath: string): FileState
    requires s.Valid() && Under(s.base, fullPath)
  {
    var p := TrimSlash(fullPath);
    (map k | k in state && !Dirtied(watched, p, k) :: state[k]) + Found(s, p)
  }

  /** A whole list of changes, applied one after the other. */
  ghost function AppliedAll(s: Scan, watched: FileState, order: seq<string>): FileState
    requires s.Valid() && forall c :: c in order ==> Under(s.base, c)
  {
    if order == [] then watched
    else Applied(s, watched, AppliedAll(s, watched, order[..|order|-1]), order[|order|-1])
  }

  lemma AppliedAllStep(s: Scan, watched: FileState, order: seq<string>, c: string)
    requires s.Valid() && Under(s.base, c) && forall c :: c in order ==> Under(s.base, c)
    ensures forall x :: x in order + [c] ==> Under(s.base, x)
    ensures AppliedAll(s, watched, order + [c]) == Applied(s, watched, AppliedAll(s, watched, order), c)
  {
    assert (order + [c])[..|order|] == order;
  }

  /** The outcome of the changes dealt with so far. */
  ghost predicate AppliedInOrder(s: Scan, watched: FileState, done: set<string>, order: seq<string>, m: FileState)
    requires s.Valid()
  {
    && Orders(order, done) && (forall c :: c in order ==> Under(s.base, c))
    && m == AppliedAll(s, watched, order)
  }

  lemma OneMoreApplied(s: Scan, watched: FileState, done: set<string>, order: seq<string>, c: string)
    requires s.Valid() && Under(s.base, c) && c !in done
    requires Orders(order, done) && forall c :: c in order ==> Under(s.base, c)
    ensures AppliedInOrder(s, watched, done + {c}, order + [c], Applied(s, watched, AppliedAll(s, watched, order), c))
  {
    OrdersExtends(order, done, c);
    AppliedAllStep(s, watched, order, c);
  }

  predicate ShouldRescan(t: Tracker, now: int) {
    t.watched.None? || t.lastRescan.None? || t.lastRescan.value + RESCAN_PERIOD < now || |t.changes| > 100
  }

  /** The new state to report, if any, and the memory afterwards. */
  ghost predicate WatchRound(s: Scan, t: Tracker, now: int, t': Tracker, reported: Option<FileState>)
    requires s.Valid() && forall c :: c in t.changes ==> Under(s.base, c)
  {
    if ShouldRescan(t, now) then
      t' == t.(changes := {}, lastRescan := Some(now)) && reported == Some(s.Walked(s.base))
    else if t.changes == {} then
      t' == t && reported == None
    else
      && t' == t.(changes := {})
      && exists order :: Orders(order, t.changes) && reported == Some(AppliedAll(s, t.watched.value, order))
  }

  // ---------------------------------------------------------------------------------------------
  // The server
  // ---------------------------------------------------------------------------------------------

  datatype Options = Options(remotePath: string, noRecursiveWatch: bool, polling: bool)

  class Server {
    const options: Options
    const matcher: Option<Matcher>
    var watchedFiles: Option<FileState>
    var changes: set<string>
    var lastRescan: Option<int>

    constructor (options: Options, matcher: Option<Matcher>)
      ensures this.options == options && this.matcher == matcher
      ensures Memory() == Tracker(None, {}, None)
    {
      this.options := options;
      this.matcher := matcher;
      watchedFiles := None;
      changes := {};
      lastRescan := None;
    }

    ghost function Memory(): Tracker
      reads this
    {
      Tracker(watchedFiles, changes, lastRescan)
    }

    ghost function ScanOf(fs: FileSystem): Scan {
      Scan(fs, options.remotePath, matcher, options.noRecursiveWatch)
    }

    /** The watch loop's body: one received event, with `queued` more in the channel. */
    method HandleEvent(event: string, queued: nat)
      modifies this`changes, this`lastRescan
      ensures Memory() == Handled(old(Memory()), event, queued)
      ensures watchedFiles == old(watchedFiles)
      ensures queued >= 999 ==> lastRescan == None && changes == old(changes)
      ensures queued < 999 ==>
                && lastRescan == old(lastRescan)
                && changes == if exists p :: p in old(changes) && p + "/" <= event then old(changes) else old(changes) + {event}
    {
      forall p ensures Above(p, event) <==> p + "/" <= event {
        AboveIsSlashPrefix(p, event);
      }
      // too many events are waiting: some may have been dropped
      if queued >= 999 {
        lastRescan := None;
        return;
      }
      // a parent folder that is already in changes covers this event
      var parts := Split(event);
      var found := false;
      var i := |parts| - 1;
      while i > 0
        invariant 0 <= i <= |parts| - 1 && Memory() == old(Memory())
        invariant found ==> exists p :: p in changes && Above(p, event)
        invariant !found ==> forall j :: i < j < |parts| ==> Join(parts[..j]) !in changes
      {
        var path := Join(parts[..i]);
        JoinedPrefixIsAbove(event, i);
        if path in changes {
          found := true;
          break;
        }
        i := i - 1;
      }
      if found {
        assert Handled(Memory(), event, queued) == Memory();
      } else {
        forall p | p in changes ensures !Above(p, event) {
          if Above(p, event) {
            var j := AboveIsJoinedPrefix(p, event);
          }
        }
        assert Handled(Memory(), event, queued) == Memory().(changes := changes + {event});
        changes := changes + {event};
      }
    }

    method DeletePathFromState(state: StateMap, path: string)
      modifies state
      ensures state.m == map k | k in old(state.m) && !Covers(path, k) :: old(state.m)[k]
    {
      var keys := state.m.Keys;
      while keys != {}
        invariant keys <= old(state.m).Keys
        invariant state.m == map k | k in old(state.m) && (k in keys || !Covers(path, k)) :: old(state.m)[k]
        decreases keys
      {
        var k :| k in keys;
        keys := keys - {k};
        AboveIsSlashPrefix(path, k);
        if path + "/" <= k || k == path {
          state.m := state.m - {k};
        }
      }
    }

    method ApplyChange(fs: FileSystem, newState: StateMap, changed: string)
      requires ScanOf(fs).Valid() && Under(options.remotePath, changed) && watchedFiles.Some?
      modifies newState
      ensures newState.m == Applied(ScanOf(fs), watchedFiles.value, old(newState.m), changed)
    {
      var fullPath := TrimSlash(changed);

      // what the old state has at this path is thrown away first
      if fullPath in watchedFiles.value {
        if watchedFiles.value[fullPath].isDir {
          DeletePathFromState(newState, fullPath);
        } else {
          newState.m := newState.m - {fullPath};
        }
      }
      ghost var kept := newState.m;
      assert kept == map k | k in old(newState.m) && !Dirtied(watchedFiles.value, fullPath, k) :: old(newState.m)[k];
      LookAt(fs, newState, fullPath);
    }

    /** The second half: what is at the path now. */
    method LookAt(fs: FileSystem, newState: StateMap, fullPath: string)
      requires ScanOf(fs).Valid() && Covers(options.remotePath, fullPath)
      modifies newState
      ensures newState.m == old(newState.m) + Found(ScanOf(fs), fullPath)
    {
      var scan := Scan(fs, options.remotePath, matcher, options.noRecursiveWatch);
      var relativePath := fullPath[|options.remotePath|..];
      ghost var before := newState.m;

      // a removed path has nothing to put in
      var stat := StatOf(scan, fullPath);
      if stat.None? {
        return;
      }
      var isDir := stat.value.DirStat?;
      if matcher.Some? && !matcher.value.requireFullScan && matcher.value.matches(relativePath, isDir) {
        return;
      }
      ghost var own: FileState := map[];
      if matcher.None? || !matcher.value.requireFullScan || !matcher.value.matches(relativePath, isDir) {
        newState.m := newState.m[fullPath := Entry(fullPath, stat.value)];
        own := map[fullPath := Entry(fullPath, stat.value)];
      }
      assert newState.m == before + own;
      if isDir {
        WalkDir(scan, fullPath, newState);
        ghost var below := scan.Walked(fullPath);
        assert newState.m == (before + own) + below;
        MapPlusAssociates(before, own, below);
        assert Found(scan, fullPath) == own + below;
      } else {
        assert Found(scan, fullPath) == own;
      }
    }

    /** A full walk. */
    method Walk(fs: FileSystem) returns (m: FileState)
      requires ScanOf(fs).Valid()
      ensures m == ScanOf(fs).Walked(options.remotePath)
    {
      var newState := new StateMap(map[]);
      var scan := Scan(fs, options.remotePath, matcher, options.noRecursiveWatch);
      WalkDir(scan, scan.base, newState);
      assert map[] + scan.Walked(scan.base) == scan.Walked(scan.base);
      m := newState.m;
    }

    /** A copy of the old state, patched at every changed path, in the order in which the set is enumerated. */
    method Patch(fs: FileSystem, changed: set<string>) returns (m: FileState)
      requires ScanOf(fs).Valid() && watchedFiles.Some? && forall c :: c in changed ==> Under(options.remotePath, c)
      ensures exists order :: Orders(order, changed) && m == AppliedAll(ScanOf(fs), watchedFiles.value, order)
    {
      var newState := new StateMap(watchedFiles.value);
      ghost var scan, watched := ScanOf(fs), watchedFiles.value;
      var todo := changed;
      ghost var done: set<string> := {};
      ghost var order: seq<string> := [];
      while todo != {}
        invariant todo + done == changed && todo !! done
        invariant AppliedInOrder(scan, watched, done, order, newState.m)
        decreases todo
      {
        var change :| change in todo;
        todo := todo - {change};
        ApplyChange(fs, newState, change);
        OneMoreApplied(scan, watched, done, order, change);
        order, done := order + [change], done + {change};
      }
      assert done == changed;
      m := newState.m;
    }

    method GetWatchState(fs: FileSystem, now: int) returns (reported: Option<FileState>)
      requires ScanOf(fs).Valid() && forall c :: c in changes ==> Under(options.remotePath, c)
      modifies this`changes, this`lastRescan
      ensures WatchRound(ScanOf(fs), old(Memory()), now, Memory(), reported)
      ensures changes == {}
      ensures var full := || old(watchedFiles).None? || old(lastRescan).None?
                          || now - old(lastRescan).value > 900 || |old(changes)| > 100;
              && (full ==> lastRescan == Some(now) && reported == Some(ScanOf(fs).Walked(options.remotePath)))
              && (!full ==> lastRescan == old(lastRescan) && (reported == None <==> old(changes) == {}))
    {
      var shouldRescan := watchedFiles.None? || lastRescan.None? || lastRescan.value + RESCAN_PERIOD < now;
      var changeAmount := |changes|;
      if changeAmount > 100 || shouldRescan {
        // a full walk covers all collected changes
        changes := {};
        lastRescan := Some(now);
        var m := Walk(fs);
        return Some(m);
      } else if changeAmount == 0 {
        return None;
      }
      var changed := changes;
      changes := {};
      var m := Patch(fs, changed);
      return Some(m);
    }

    /** One request of the client: stream what is new, then remember it. */
    method Changes(fs: FileSystem, now: int, stream: ChangeStream) returns (r: Result<int>, ghost reported: Option<FileState>)
      requires ScanOf(fs).Valid() && forall c :: c in changes ==> Under(options.remotePath, c)
      requires Keyed(options.remotePath, StateOf(watchedFiles))
      modifies this`watchedFiles, this`changes, this`lastRescan, stream
      ensures Keyed(options.remotePath, StateOf(watchedFiles)) && Keyed(options.remotePath, StateOf(reported))
      ensures options.polling ==>
                && reported == Some(ScanOf(fs).Walked(options.remotePath))
                && changes == old(changes) && lastRescan == old(lastRescan)
      ensures !options.polling ==>
                WatchRound(ScanOf(fs), old(Memory()), now, Memory().(watched := old(watchedFiles)), reported)
      ensures reported.None? ==> r.Ok? && watchedFiles == old(watchedFiles) && stream.sent == old(stream.sent)
      ensures reported.Some? && r.Ok? ==>
                && watchedFiles == reported
                && Delivered(options.remotePath, StateOf(old(watchedFiles)), reported.value, old(stream.sent), stream.sent)
      ensures reported.Some? && r.Err? ==>
                && watchedFiles == old(watchedFiles) && stream.budget == 0
                && DiffKeys(StateOf(old(watchedFiles)), reported.value) != {}
    {
      var newState: Option<FileState>;
      if !options.polling {
        newState := GetWatchState(fs, now);
        WatchRoundKeyed(ScanOf(fs), old(Memory()), now, Memory(), newState);
      } else {
        var m := Walk(fs);
        WalkedKeyed(ScanOf(fs), options.remotePath);
        newState := Some(m);
      }
      reported := newState;
      r := Ok(0);
      if newState.Some? {
        ghost var order, chunks;
        r, order, chunks := StreamChanges(options.remotePath, watchedFiles, newState.value, stream);
        if r.Err? {
          return;
        }
        assert Delivered(options.remotePath, StateOf(old(watchedFiles)), newState.value, old(stream.sent), stream.sent);
        watchedFiles := newState;
      }
    }

    /** The cheap question whether there is anything to fetch. */
    method ChangesCount(fs: FileSystem) returns (amount: int)
      requires ScanOf(fs).Valid() && Keyed(options.remotePath, StateOf(watchedFiles))
      ensures options.polling ==>
                amount == |DiffKeys(StateOf(watchedFiles), ScanOf(fs).Walked(options.remotePath))|
      ensures !options.polling ==> amount == if lastRescan.None? then 1 else |changes|
    {
      if options.polling {
        var m := Walk(fs);
        WalkedKeyed(ScanOf(fs), options.remotePath);
        var r, _, _ := StreamChanges(options.remotePath, watchedFiles, m, null);
        amount := r.value;
      } else if lastRescan.None? {
        amount := 1;
      } else {
        amount := |changes|;
      }
    }
  }

  /** The stream received the difference between the two states, in chunks. */
  ghost predicate Delivered(
    base: string, oldState: FileState, newState: FileState, before: seq<seq<Change>>, after: seq<seq<Change>>)
    requires Keyed(base, oldState) && Keyed(base, newState)
  {
    exists order, chunks ::
      && Orders(order, DiffKeys(oldState, newState))
      && Chunked(chunks, ChangeStreaming.Changes(base, oldState, newState, order))
      && after == before + chunks
  }

  lemma {:induction false} NoEmptyChunks(chunks: seq<seq<Change>>, list: seq<Change>)
    requires Chunked(chunks, list)
    ensures chunks == [] <==> list == []
  {
    if chunks != [] {
      assert |chunks[|chunks|-1]| > 0;
    }
  }

  lemma NothingDelivered(
    base: string, oldState: FileState, newState: FileState, before: seq<seq<Change>>, after: seq<seq<Change>>)
    requires Keyed(base, oldState) && Keyed(base, newState) && Delivered(base, oldState, newState, before, after)
    ensures after == before <==> DiffKeys(oldState, newState) == {}
  {
    var order, chunks :| Orders(order, DiffKeys(oldState, newState))
      && Chunked(chunks, ChangeStreaming.Changes(base, oldState, newState, order)) && after == before + chunks;
    NoEmptyChunks(chunks, ChangeStreaming.Changes(base, oldState, newState, order));
    assert after == before <==> chunks == [];
    if order != [] {
      assert order[0] in DiffKeys(oldState, newState);
    }
  }

  /** When polling, the cheap answer for the same tree is exact: 0 if and only if a request sends nothing. */
  method CountThenChanges(server: Server, fs: FileSystem, now: int, stream: ChangeStream) returns (amount: int, r: Result<int>)
    requires server.options.polling && server.ScanOf(fs).Valid() && forall c :: c in server.changes ==> Under(server.options.remotePath, c)
    requires Keyed(server.options.remotePath, StateOf(server.watchedFiles))
    modifies server`watchedFiles, server`changes, server`lastRescan, stream
    ensures r.Ok? ==> (amount == 0 <==> stream.sent == old(stream.sent))
    ensures amount == 0 ==> r.Ok?
  {
    amount := server.ChangesCount(fs);
    ghost var before := server.watchedFiles;
    ghost var reported;
    r, reported := server.Changes(fs, now, stream);
    if r.Ok? {
      NothingDelivered(server.options.remotePath, StateOf(before), reported.value, old(stream.sent), stream.sent);
    }
  }

  // ---------------------------------------------------------------------------------------------
  // Every entry stays under its own path
  // ---------------------------------------------------------------------------------------------

  lemma WalkedKeyed(s: Scan, path: string)
    requires s.Valid()
    ensures Keyed(s.base, s.Walked(path))
  {
  }

  lemma AppliedKeyed(s: Scan, watched: FileState, state: FileState, c: string)
    requires s.Valid() && Keyed(s.base, state) && Under(s.base, c)
    ensures Keyed(s.base, Applied(s, watched, state, c))
  {
    var p := TrimSlash(c);
    WalkedKeyed(s, p);
    assert Keyed(s.base, Found(s, p));
  }

  lemma {:induction false} AppliedAllKeyed(s: Scan, watched: FileState, order: seq<string>)
    requires s.Valid() && Keyed(s.base, watched) && forall c :: c in order ==> Under(s.base, c)
    ensures Keyed(s.base, AppliedAll(s, watched, order))
  {
    if order != [] {
      AppliedAllKeyed(s, watched, order[..|order|-1]);
      AppliedKeyed(s, watched, AppliedAll(s, watched, order[..|order|-1]), order[|order|-1]);
    }
  }

  lemma WatchRoundKeyed(s: Scan, t: Tracker, now: int, t': Tracker, reported: Option<FileState>)
    requires s.Valid() && Keyed(s.base, StateOf(t.watched)) && forall c :: c in t.changes ==> Under(s.base, c)
    requires WatchRound(s, t, now, t', reported)
    ensures Keyed(s.base, StateOf(reported))
  {
    if ShouldRescan(t, now) {
      WalkedKeyed(s, s.base);
    } else if t.changes != {} {
      var order :| Orders(order, t.changes) && reported == Some(AppliedAll(s, t.watched.value, order));
      AppliedAllKeyed(s, t.watched.value, order);
    }
  }
}
