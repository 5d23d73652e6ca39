/** A run in which the client keeps a file that no longer exists, although no event was dropped, no message was lost and
    no event is waiting: the server patched its memory while events were still queued. */
module StaleEntry {
  import opened Paths
  import opened Walk
  import opened ChangeStreaming
  import opened Downstream
  import opened Incremental
  import opened Mirroring
  import opened Wrappers

  function Present(d: string, f: string): FileSystem {
    map[d := DirStat, f := FileStat(0, 0, 0, 0)]
  }

  function FileOnly(f: string): FileState {
    map[f := Entry(f, FileStat(0, 0, 0, 0))]
  }

  ghost function Plain(base: string): Config {
    Config(base, None)
  }

  lemma TreesAreWellFormed(base: string, d: string, f: string)
    requires DirectoryWithFile(base, d, f)
    ensures WellFormed(Present(d, f), base) && WellFormed(map[], base) && Plain(base).Valid()
    ensures Event(base, d) && Event(base, f) && Above(d, f)
  {
    SmallTree(base, d, f, FileStat(0, 0, 0, 0));
  }

  lemma Walks(base: string, d: string, f: string)
    requires DirectoryWithFile(base, d, f)
    ensures WellFormed(Present(d, f), base) && WellFormed(map[], base)
    ensures Rescan(Plain(base).At(map[])) == map[]
    ensures Rescan(Plain(base).At(Present(d, f))).Keys == {d, f}
  {
    TreesAreWellFormed(base, d, f);
    var s := Plain(base).At(Present(d, f));
    assert s.Recorded(base, d) && s.Recorded(base, f);
  }

  lemma EventsCover(base: string, d: string, f: string, events: seq<string>)
    requires DirectoryWithFile(base, d, f) && d in events
    ensures WellFormed(Present(d, f), base) && WellFormed(map[], base)
    ensures DifferOnlyAt(Rescan(Plain(base).At(map[])), Rescan(Plain(base).At(Present(d, f))), set e | e in events)
    ensures DifferOnlyAt(Rescan(Plain(base).At(Present(d, f))), Rescan(Plain(base).At(map[])), set e | e in events)
  {
    Walks(base, d, f);
    assert d in (set e | e in events) && Covers(d, d) && Covers(d, f);
  }

  /** Memory and surroundings between two requests. */
  ghost function State(
    watched: Option<FileState>, changes: set<string>, rescan: Option<int>, fs: FileSystem, queue: seq<string>,
    held: Option<string>, inflight: Option<FileState>, client: ClientState, asked: Option<FileSystem>): System
  {
    System(Tracker(watched, changes, rescan), fs, multiset{}, queue, held, inflight, client, false, asked)
  }

  ghost function Extend(c: Config, run: seq<System>, s: System): (r: seq<System>)
    requires Run(c, AtAnyTime, run) && Step(c, AtAnyTime, run[|run|-1], s)
    ensures Run(c, AtAnyTime, r) && r == run + [s]
  {
    OneMoreStep(c, AtAnyTime, run, s);
    run + [s]
  }

  function Last(run: seq<System>): System
    requires run != []
  {
    run[|run|-1]
  }

  /** The tree becomes `fs`, and all events reach the queue. */
  lemma EditTo(c: Config, before: seq<System>, fs: FileSystem, events: seq<string>) returns (run: seq<System>)
    requires Run(c, AtAnyTime, before) && |Last(before).queue| + |events| <= EVENT_CAPACITY
    requires Last(before).emitted == multiset{}
    requires WellFormed(Last(before).fs, c.base) && WellFormed(fs, c.base) && forall e :: e in events ==> Event(c.base, e)
    requires DifferOnlyAt(Rescan(c.At(Last(before).fs)), Rescan(c.At(fs)), set e | e in events)
    ensures Run(c, AtAnyTime, run)
    ensures Last(run) == Last(before).(fs := fs, queue := Last(before).queue + events)
  {
    var s := Last(before);
    var s' := s.(fs := fs, emitted := multiset(events));
    assert Edit(c, s, s', events);
    run := DeliverAll(c, Extend(c, before, s'), events);
  }

  lemma DeliverFirst(c: Config, before: seq<System>, e: string, rest: seq<string>) returns (run: seq<System>)
    requires Run(c, AtAnyTime, before) && |Last(before).queue| < EVENT_CAPACITY
    requires Last(before).emitted == multiset([e] + rest)
    ensures Run(c, AtAnyTime, run)
    ensures Last(run) == Last(before).(emitted := multiset(rest), queue := Last(before).queue + [e])
  {
    var s := Last(before);
    assert multiset([e] + rest) == multiset{e} + multiset(rest);
    var s' := s.(emitted := s.emitted - multiset{e}, queue := s.queue + [e]);
    assert Deliver(s, s', e);
    run := Extend(c, before, s');
  }

  lemma {:induction false} DeliverAll(c: Config, before: seq<System>, events: seq<string>) returns (run: seq<System>)
    requires Run(c, AtAnyTime, before) && |Last(before).queue| + |events| <= EVENT_CAPACITY
    requires Last(before).emitted == multiset(events)
    ensures Run(c, AtAnyTime, run)
    ensures Last(run) == Last(before).(emitted := multiset{}, queue := Last(before).queue + events)
    decreases |events|
  {
    if events == [] {
      assert Last(before).queue + events == Last(before).queue;
      run := before;
    } else {
      var e, rest := events[0], events[1..];
      assert events == [e] + rest;
      var next := DeliverFirst(c, before, e, rest);
      run := DeliverAll(c, next, rest);
      OneByOne(Last(before).queue, e, rest, events);
    }
  }

  lemma OneByOne(queue: seq<string>, e: string, rest: seq<string>, events: seq<string>)
    requires events == [e] + rest
    ensures (queue + [e]) + rest == queue + events
  {
  }

  /** The watcher takes the first event from the queue and handles it. */
  lemma HandleNext(c: Config, before: seq<System>, e: string, rest: seq<string>) returns (run: seq<System>)
    requires Run(c, AtAnyTime, before) && Last(before).held.None? && Last(before).queue == [e] + rest
    ensures Run(c, AtAnyTime, run)
    ensures Last(run) == Last(before).(queue := rest, memory := Handled(Last(before).memory, e, |rest|))
  {
    var s := Last(before);
    assert s.queue[0] == e && s.queue[1..] == rest;
    var s' := s.(held := Some(e), queue := rest);
    assert Receive(s, s');
    var s'' := s'.(held := None, memory := Handled(s.memory, e, |rest|));
    assert Handle(s', s'');
    run := Extend(c, Extend(c, before, s'), s'');
  }

  /** The first request walks the whole tree while everything is gone. */
  lemma FirstWalk(base: string, d: string, f: string) returns (run: seq<System>)
    requires DirectoryWithFile(base, d, f)
    ensures Run(Plain(base), AtAnyTime, run)
    ensures Last(run) == State(Some(map[]), {}, Some(0), map[], [f, d], None, None, map[], None)
  {
    var c := Plain(base);
    TreesAreWellFormed(base, d, f);
    EventsCover(base, d, f, [f, d]);
    var s0 := State(None, {}, None, Present(d, f), [], None, None, map[], None);
    assert Init(c, s0);
    run := EditTo(c, [s0], map[], [f, d]);
    var s1 := Last(run);
    assert [] + [f, d] == [f, d];
    var s2 := State(None, {}, Some(0), map[], [f, d], None, Some(map[]), map[], None);
    WalkBegins(base, d, f, s1, s2);
    run := Extend(c, run, s2);
    var s3 := State(Some(map[]), {}, Some(0), map[], [f, d], None, None, map[], None);
    EmptyFinish(c, s2, s3, map[]);
    run := Extend(c, run, s3);
  }

  lemma WalkBegins(base: string, d: string, f: string, s: System, s': System)
    requires DirectoryWithFile(base, d, f) && s == State(None, {}, None, map[], [f, d], None, None, map[], None)
    requires s' == s.(memory := Tracker(None, {}, Some(0)), inflight := Some(map[]))
    ensures Step(Plain(base), AtAnyTime, s, s')
  {
    TreesAreWellFormed(base, d, f);
    Walks(base, d, f);
    assert WatchRound(Plain(base).At(s.fs), s.memory, 0, s'.memory, s'.inflight);
    assert Begin(Plain(base), s, s', 0) && Permitted(Plain(base), AtAnyTime, s, 0);
  }

  lemma EmptyFinish(c: Config, s: System, s': System, m: FileState)
    requires s.inflight == Some(m) && StateOf(s.memory.watched) == m && Keyed(c.base, m)
    requires s' == s.(memory := s.memory.(watched := Some(m)), inflight := None)
    ensures Finish(c, s, s')
  {
    assert Orders([], DiffKeys(m, m));
    assert ApplyAll(s.client, Changes(c.base, m, m, [])) == s.client;
  }

  /** The directory and the file are created again; of the queued events the one of the file is handled. */
  lemma Recreated(base: string, d: string, f: string) returns (run: seq<System>)
    requires DirectoryWithFile(base, d, f)
    ensures Run(Plain(base), AtAnyTime, run)
    ensures Last(run) == State(Some(map[]), {f}, Some(0), Present(d, f), [d, d], None, None, map[], None)
  {
    var c := Plain(base);
    TreesAreWellFormed(base, d, f);
    EventsCover(base, d, f, [d]);
    run := FirstWalk(base, d, f);
    run := EditTo(c, run, Present(d, f), [d]);
    assert [f, d] + [d] == [f] + [d, d];
    run := HandleNext(c, run, f, [d, d]);
  }

  /** Patching at `f` alone remembers the file without its directory. */
  lemma PatchFile(base: string, d: string, f: string)
    requires DirectoryWithFile(base, d, f)
    ensures WellFormed(Present(d, f), base) && Under(base, f)
    ensures AppliedAll(Plain(base).At(Present(d, f)), map[], [f]) == FileOnly(f)
    ensures Orders([f], {f})
  {
    TreesAreWellFormed(base, d, f);
    var s := Plain(base).At(Present(d, f));
    assert [f][..0] == [];
    assert Found(s, f) == FileOnly(f);
  }

  lemma PatchedOnce(base: string, d: string, f: string) returns (run: seq<System>, client: ClientState)
    requires DirectoryWithFile(base, d, f)
    ensures Run(Plain(base), AtAnyTime, run) && Mirrors(client, base, FileOnly(f))
    ensures run[|run|-1] == State(Some(FileOnly(f)), {}, Some(0), Present(d, f), [d, d], None, None, client, None)
  {
    var c := Plain(base);
    run := Recreated(base, d, f);
    var s6 := run[|run|-1];
    var s7 := s6.(memory := Tracker(Some(map[]), {}, Some(0)), inflight := Some(FileOnly(f)));
    FilePatchBegins(base, d, f, s6, s7);
    run := Extend(c, run, s7);
    var s8 := FileFinishes(base, d, f, s7);
    client := s8.client;
    run := Extend(c, run, s8);
  }

  lemma FileFinishes(base: string, d: string, f: string, s: System) returns (s': System)
    requires DirectoryWithFile(base, d, f) && s.memory == Tracker(Some(map[]), {}, Some(0))
    requires s.inflight == Some(FileOnly(f)) && s.client == map[]
    ensures Step(Plain(base), AtAnyTime, s, s') && Mirrors(s'.client, base, FileOnly(f))
    ensures s' == s.(memory := Tracker(Some(FileOnly(f)), {}, Some(0)), inflight := None, client := s'.client)
  {
    TreesAreWellFormed(base, d, f);
    assert Keyed(base, FileOnly(f)) && Keyed(base, map[]);
    assert Orders([f], DiffKeys(map[], FileOnly(f)));
    var client := ApplyAll(map[], Changes(base, map[], FileOnly(f), [f]));
    forall r ensures MirrorsAt(map[], base, map[], r) {
    }
    DiffIsPatch(map[], base, map[], FileOnly(f), [f]);
    s' := s.(memory := s.memory.(watched := s.inflight), inflight := None, client := client);
    assert Finish(Plain(base), s, s');
  }

  lemma FilePatchBegins(base: string, d: string, f: string, s: System, s': System)
    requires DirectoryWithFile(base, d, f)
    requires s == State(Some(map[]), {f}, Some(0), Present(d, f), [d, d], None, None, map[], None)
    requires s' == s.(memory := Tracker(Some(map[]), {}, Some(0)), inflight := Some(FileOnly(f)))
    ensures Step(Plain(base), AtAnyTime, s, s')
  {
    PatchFile(base, d, f);
    assert !ShouldRescan(s.memory, 0);
    assert WatchRound(Plain(base).At(s.fs), s.memory, 0, s'.memory, s'.inflight);
    assert Begin(Plain(base), s, s', 0) && Permitted(Plain(base), AtAnyTime, s, 0);
  }

  /** Both are removed again. The queued events record `d`, and only `d`, as changed. */
  lemma RemovedAgain(base: string, d: string, f: string) returns (run: seq<System>, client: ClientState)
    requires DirectoryWithFile(base, d, f)
    ensures Run(Plain(base), AtAnyTime, run) && Mirrors(client, base, FileOnly(f))
    ensures run[|run|-1] == State(Some(FileOnly(f)), {d}, Some(0), map[], [], None, None, client, None)
  {
    var c := Plain(base);
    run, client := PatchedOnce(base, d, f);
    TreesAreWellFormed(base, d, f);
    EventsCover(base, d, f, [d]);
    run := EditTo(c, run, map[], [d]);
    assert [d, d] + [d] == [d] + [d, d];
    run := HandleNext(c, run, d, [d, d]);
    assert [d, d] == [d] + [d] && [d] == [d] + [];
    run := HandleSame(c, run, d, [d]);
    run := HandleSame(c, run, d, []);
  }

  /** An event whose path is recorded already changes nothing. */
  lemma HandleSame(c: Config, before: seq<System>, d: string, rest: seq<string>) returns (run: seq<System>)
    requires Run(c, AtAnyTime, before) && Last(before).held.None? && Last(before).queue == [d] + rest
    requires Last(before).memory.changes == {d} && |rest| < 999
    ensures Run(c, AtAnyTime, run) && Last(run) == Last(before).(queue := rest)
  {
    run := HandleNext(c, before, d, rest);
    HandledTwice(Last(before).memory, d, |rest|);
  }

  lemma HandledTwice(t: Tracker, d: string, queued: nat)
    requires t.changes == {d} && queued < 999
    ensures Handled(t, d, queued) == t
  {
    assert t.changes + {d} == t.changes;
  }

  /** Patching at `d` throws nothing away, because `d` itself is not remembered. */
  lemma PatchDirectory(base: string, d: string, f: string)
    requires DirectoryWithFile(base, d, f)
    ensures WellFormed(map[], base) && Under(base, d) && Orders([d], {d})
    ensures AppliedAll(Plain(base).At(map[]), FileOnly(f), [d]) == FileOnly(f)
  {
    TreesAreWellFormed(base, d, f);
    var s := Plain(base).At(map[]);
    assert [d][..0] == [];
    assert Found(s, d) == map[];
  }

  /** Main result: after a request that found no event waiting, the client mirrors a file that does not exist. So a full
      walk and a patch may not be mixed with waiting events at will. */
  lemma ClientKeepsRemovedFile(base: string, d: string, f: string) returns (run: seq<System>, i: nat)
    requires DirectoryWithFile(base, d, f)
    ensures Run(Plain(base), AtAnyTime, run) && i + 1 < |run|
    ensures Finish(Plain(base), run[i], run[i+1]) && run[i].asked == Some(map[]) && run[i+1].fs == map[]
    ensures Mirrors(run[i+1].client, base, FileOnly(f))
    ensures !Mirrors(run[i+1].client, base, map[])
  {
    var client;
    run, client := RemovedAgain(base, d, f);
    i := |run|;
    run := LastRequest(base, d, f, run);
    TreesAreWellFormed(base, d, f);
    var r := f[|base|..];
    assert base + r == f;
    assert MirrorsAt(client, base, FileOnly(f), r) && !MirrorsAt(client, base, map[], r);
  }

  lemma LastRequest(base: string, d: string, f: string, before: seq<System>) returns (run: seq<System>)
    requires DirectoryWithFile(base, d, f) && Run(Plain(base), AtAnyTime, before)
    requires before[|before|-1] == State(Some(FileOnly(f)), {d}, Some(0), map[], [], None, None, before[|before|-1].client, None)
    ensures Run(Plain(base), AtAnyTime, run) && |run| == |before| + 2
    ensures var i := |before|;
            && Finish(Plain(base), run[i], run[i+1]) && run[i].asked == Some(map[]) && run[i+1].fs == map[]
            && run[i+1].client == before[|before|-1].client
  {
    var c, m := Plain(base), FileOnly(f);
    var s15 := before[|before|-1];
    var s16 := s15.(memory := Tracker(Some(m), {}, Some(0)), inflight := Some(m), asked := Some(map[]));
    var s17 := s16.(inflight := None);
    PatchBegins(base, d, f, s15, s16);
    run := Extend(c, before, s16);
    assert Keyed(base, m);
    EmptyFinish(c, s16, s17, m);
    run := Extend(c, run, s17);
  }

  lemma PatchBegins(base: string, d: string, f: string, s: System, s': System)
    requires DirectoryWithFile(base, d, f)
    requires s == State(Some(FileOnly(f)), {d}, Some(0), map[], [], None, None, s.client, None)
    requires s' == s.(memory := s'.memory, inflight := Some(FileOnly(f)), asked := Some(map[]))
    requires s'.memory == Tracker(Some(FileOnly(f)), {}, Some(0))
    ensures Step(Plain(base), AtAnyTime, s, s')
  {
    PatchDirectory(base, d, f);
    TreesAreWellFormed(base, d, f);
    assert !ShouldRescan(s.memory, 0);
    assert WatchRound(Plain(base).At(s.fs), s.memory, 0, s'.memory, s'.inflight);
    assert Begin(Plain(base), s, s', 0) && Permitted(Plain(base), AtAnyTime, s, 0);
  }
}
