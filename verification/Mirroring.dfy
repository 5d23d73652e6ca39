/** Runs of the whole system: the file tree is edited, events are emitted and later queued or dropped, the watcher folds
    them into the changed paths, and the client fetches changes in two steps, with everything else going on in between. */
module Mirroring {
  import opened Paths
  import opened Walk
  import opened ChangeStreaming
  import opened Downstream
  import opened Incremental
  import opened Wrappers

  /** What does not change during a run. */
  datatype Config = Config(base: string, matcher: Option<Matcher>) {

    ghost function At(fs: FileSystem): Scan {
      Scan(fs, base, matcher, false)
    }

    /** Ignored directories are skipped, together with everything below them. */
    ghost predicate Valid() {
      && (matcher.None? || !matcher.value.requireFullScan)
      && forall fs :: WellFormed(fs, base) ==> SkipsSubtrees(At(fs))
    }
  }

  /** A state of the system. `emitted` are the events that have not reached the queue yet, `held` is the event the watcher
      has taken from the queue but not yet handled, `inflight` the state a running request will remember. Two fields only
      record history: `missed` that an event was dropped and no full walk has been made since, `asked` the tree a running
      request found, if no event was waiting then. */
  datatype System = System(
    memory: Tracker, fs: FileSystem, emitted: multiset<string>, queue: seq<string>, held: Option<string>,
    inflight: Option<FileState>, client: ClientState, missed: bool, asked: Option<FileSystem>) {

    predicate Drained() {
      emitted == multiset{} && queue == [] && held.None?
    }

    /** Paths that are yet to be looked at. */
    ghost function Pending(): set<string> {
      memory.changes + Waiting()
    }

    ghost function Waiting(): set<string> {
      (set e | e in emitted) + (set e | e in queue) + (if held.Some? then {held.value} else {})
    }

    /** What the server will remember once the running request is through. */
    ghost function Effective(): FileState {
      StateOf(if inflight.Some? then inflight else memory.watched)
    }
  }

  // ---------------------------------------------------------------------------------------------
  // Steps
  // ---------------------------------------------------------------------------------------------

  ghost predicate Init(c: Config, s: System) {
    && c.Valid() && WellFormed(s.fs, c.base)
    && s == System(Tracker(None, {}, None), s.fs, multiset{}, [], None, None, map[], false, None)
  }

  /** The tree changes; every recorded difference lies at or below the path of one of the events. */
  ghost predicate Edit(c: Config, s: System, s': System, events: seq<string>) {
    && WellFormed(s.fs, c.base) && WellFormed(s'.fs, c.base)
    && (forall e :: e in events ==> Event(c.base, e))
    && DifferOnlyAt(Rescan(c.At(s.fs)), Rescan(c.At(s'.fs)), set e | e in events)
    && s' == s.(fs := s'.fs, emitted := s.emitted + multiset(events))
  }

  /** Some event is put into the queue, or dropped if the queue is full. */
  ghost predicate Deliver(s: System, s': System, e: string) {
    && e in s.emitted
    && s' == if |s.queue| < EVENT_CAPACITY then
               s.(emitted := s.emitted - multiset{e}, queue := s.queue + [e])
             else
               s.(emitted := s.emitted - multiset{e}, missed := true)
  }

  ghost predicate Receive(s: System, s': System) {
    s.held.None? && s.queue != [] && s' == s.(held := Some(s.queue[0]), queue := s.queue[1..])
  }

  ghost predicate Handle(s: System, s': System) {
    s.held.Some? && s' == s.(held := None, memory := Handled(s.memory, s.held.value, |s.queue|))
  }

  /** A request arrives and the server works out the new state, from one snapshot of the tree. */
  ghost predicate Begin(c: Config, s: System, s': System, now: int) {
    && s.inflight.None? && WellFormed(s.fs, c.base) && (forall e :: e in s.memory.changes ==> Under(c.base, e))
    && WatchRound(c.At(s.fs), s.memory, now, s'.memory, s'.inflight)
    && s' == s.(memory := s'.memory, inflight := s'.inflight,
                missed := s.missed && !ShouldRescan(s.memory, now),
                asked := if s.Drained() then Some(s.fs) else None)
  }

  /** The differences have been streamed; the server remembers, and the client has applied them. */
  ghost predicate Finish(c: Config, s: System, s': System) {
    && s.inflight.Some? && Keyed(c.base, s.inflight.value) && Keyed(c.base, StateOf(s.memory.watched))
    && exists order ::
         && Orders(order, DiffKeys(StateOf(s.memory.watched), s.inflight.value))
         && s' == s.(memory := s.memory.(watched := s.inflight), inflight := None,
                     client := ApplyAll(s.client, Changes(c.base, StateOf(s.memory.watched), s.inflight.value, order)))
  }

  /** Every remembered entry that lies below a changed path without a change that throws it away still exists, or will be
      looked at because of an event that is waiting. */
  ghost predicate NoLostOrphan(c: Config, s: System)
    requires WellFormed(s.fs, c.base)
  {
    forall k :: Orphan(StateOf(s.memory.watched), s.memory.changes, k) ==> k in Rescan(c.At(s.fs)) || Covered(s.Waiting(), k)
  }

  /** When patching may start. Full walks may start at any time. */
  datatype Discipline =
    | AtAnyTime
    | WithoutLostOrphans // or if an event was dropped, so that a full walk is due anyway
    | WhenDrained

  ghost predicate Permitted(c: Config, d: Discipline, s: System, now: int)
    requires WellFormed(s.fs, c.base)
  {
    || ShouldRescan(s.memory, now)
    || match d
       case AtAnyTime => true
       case WithoutLostOrphans => s.missed || NoLostOrphan(c, s)
       case WhenDrained => s.Drained()
  }

  /** What happens beside the requests. */
  ghost predicate Background(c: Config, s: System, s': System) {
    || (exists events :: Edit(c, s, s', events))
    || (exists e :: Deliver(s, s', e))
    || Receive(s, s')
    || Handle(s, s')
  }

  ghost predicate Step(c: Config, d: Discipline, s: System, s': System) {
    || Background(c, s, s')
    || (exists now :: Begin(c, s, s', now) && Permitted(c, d, s, now))
    || Finish(c, s, s')
  }

  /** Nothing is delivered, and what is remembered stays. */
  ghost predicate SameRequest(s: System, s': System) {
    s'.inflight == s.inflight && s'.client == s.client && s'.memory.watched == s.memory.watched
  }

  lemma BackgroundIsSilent(c: Config, s: System, s': System)
    requires Background(c, s, s')
    ensures SameRequest(s, s')
  {
  }

  ghost predicate StepAt(c: Config, d: Discipline, run: seq<System>, i: nat)
    requires i + 1 < |run|
  {
    Step(c, d, run[i], run[i+1])
  }

  /** The first state is initial, and each pair of consecutive states is a step. */
  ghost predicate Run(c: Config, d: Discipline, run: seq<System>) {
    run != [] && Init(c, run[0]) && forall i :: 0 <= i < |run| - 1 ==> StepAt(c, d, run, i)
  }

  lemma PrefixIsRun(c: Config, d: Discipline, run: seq<System>, n: nat)
    requires Run(c, d, run) && 0 < n <= |run|
    ensures Run(c, d, run[..n])
  {
    forall i | 0 <= i < n - 1 ensures StepAt(c, d, run[..n], i) {
      assert StepAt(c, d, run, i);
    }
  }

  lemma OneMoreStep(c: Config, d: Discipline, run: seq<System>, s: System)
    requires Run(c, d, run) && Step(c, d, run[|run|-1], s)
    ensures Run(c, d, run + [s])
  {
    forall i | 0 <= i < |run| ensures StepAt(c, d, run + [s], i) {
      if i < |run| - 1 {
        assert StepAt(c, d, run, i);
      }
    }
  }

  // ---------------------------------------------------------------------------------------------
  // Overflow
  // ---------------------------------------------------------------------------------------------

  function Size(held: Option<string>): nat {
    if held.Some? then 1 else 0
  }

  /** After a drop the queue stays full until the watcher notices. */
  ghost predicate OverflowNoticed(s: System) {
    && |s.queue| <= EVENT_CAPACITY
    && (s.missed ==> s.memory.lastRescan.None? || |s.queue| + Size(s.held) >= EVENT_CAPACITY)
  }

  lemma OverflowBackground(c: Config, s: System, s': System)
    requires OverflowNoticed(s) && Background(c, s, s')
    ensures OverflowNoticed(s')
  {
  }

  lemma OverflowStep(c: Config, d: Discipline, s: System, s': System)
    requires OverflowNoticed(s) && Step(c, d, s, s')
    ensures OverflowNoticed(s')
  {
    if Background(c, s, s') {
      OverflowBackground(c, s, s');
    } else if !Finish(c, s, s') {
      var now :| Begin(c, s, s', now);
      assert s'.queue == s.queue && s'.held == s.held;
    }
  }

  lemma {:induction false} OverflowInRun(c: Config, d: Discipline, run: seq<System>, i: nat)
    requires Run(c, d, run) && i < |run|
    ensures OverflowNoticed(run[i])
  {
    if i > 0 {
      OverflowInRun(c, d, run, i - 1);
      assert StepAt(c, d, run, i - 1);
      OverflowStep(c, d, run[i-1], run[i]);
    }
  }

  /** Main result: whatever was dropped since the last full walk, once the queue is empty the next request walks the
      whole tree; also if there are events that have not reached the queue yet. */
  lemma OverflowNeverMissed(c: Config, d: Discipline, run: seq<System>, i: nat, now: int)
    requires Run(c, d, run) && i < |run| && run[i].missed && run[i].queue == [] && run[i].held.None?
    ensures ShouldRescan(run[i].memory, now)
  {
    OverflowInRun(c, d, run, i);
  }

  // ---------------------------------------------------------------------------------------------
  // What holds in every run
  // ---------------------------------------------------------------------------------------------

  ghost predicate Consistent(c: Config, s: System) {
    && c.Valid() && WellFormed(s.fs, c.base)
    && (forall e :: e in s.Pending() ==> Event(c.base, e))
    && Keyed(c.base, StateOf(s.memory.watched)) && Keyed(c.base, StateOf(s.inflight))
    && (s.memory.lastRescan.Some? ==> s.memory.watched.Some? || s.inflight.Some?)
    && (s.asked.Some? ==> WellFormed(s.asked.value, c.base))
  }

  /** The client mirrors what the server remembers, be it right or wrong. */
  ghost predicate Sound(c: Config, s: System) {
    && Consistent(c, s)
    && OverflowNoticed(s)
    && Mirrors(s.client, c.base, StateOf(s.memory.watched))
  }

  lemma InitIsSound(c: Config, s: System)
    requires Init(c, s)
    ensures Sound(c, s)
  {
    forall r ensures MirrorsAt(map[], c.base, map[], r) {
    }
  }

  lemma EditKeepsEvents(c: Config, s: System, s': System, events: seq<string>)
    requires Edit(c, s, s', events)
    ensures s'.Pending() == s.Pending() + set e | e in events
  {
    assert forall e :: e in s'.emitted <==> e in s.emitted || e in events;
  }

  lemma DeliverKeepsEvents(s: System, s': System, e: string)
    requires Deliver(s, s', e)
    ensures s'.Pending() <= s.Pending()
    ensures !s'.missed ==> s'.Pending() == s.Pending()
  {
    assert forall x :: x in s.emitted <==> x in s'.emitted || x == e;
  }

  lemma ReceiveKeepsEvents(s: System, s': System)
    requires Receive(s, s')
    ensures s'.Waiting() == s.Waiting() && s'.Pending() == s.Pending()
  {
    assert s.queue == [s.queue[0]] + s.queue[1..];
  }

  lemma HandleKeepsEvents(s: System, s': System)
    requires Handle(s, s')
    ensures s'.Pending() <= s.Pending()
    ensures s.Pending() == s'.Waiting() + (s.memory.changes + {s.held.value})
  {
  }

  lemma BeginKeepsEvents(c: Config, s: System, s': System, now: int)
    requires Begin(c, s, s', now)
    ensures s'.Pending() <= s.Pending() && s'.Waiting() == s.Waiting()
  {
  }

  lemma FinishMirrors(c: Config, s: System, s': System)
    requires Finish(c, s, s') && Mirrors(s.client, c.base, StateOf(s.memory.watched))
    ensures Mirrors(s'.client, c.base, s.inflight.value) && s'.memory.watched == s.inflight
  {
    var was, now_ := StateOf(s.memory.watched), s.inflight.value;
    var order :| Orders(order, DiffKeys(was, now_))
      && s' == s.(memory := s.memory.(watched := s.inflight), inflight := None,
                  client := ApplyAll(s.client, Changes(c.base, was, now_, order)));
    DiffIsPatch(s.client, c.base, was, now_, order);
  }

  lemma BeginIsConsistent(c: Config, s: System, s': System, now: int)
    requires Consistent(c, s) && Begin(c, s, s', now)
    ensures Consistent(c, s')
  {
    BeginKeepsEvents(c, s, s', now);
    if s'.inflight.Some? {
      WatchRoundKeyed(c.At(s.fs), s.memory, now, s'.memory, s'.inflight);
    }
  }

  /** Nothing is remembered anew, and no event is new. */
  lemma QuietIsConsistent(c: Config, s: System, s': System)
    requires Consistent(c, s) && WellFormed(s'.fs, c.base) && s'.asked == s.asked
    requires s'.inflight == s.inflight && s'.memory.watched == s.memory.watched
    requires (s'.memory.lastRescan.Some? ==> s.memory.lastRescan.Some?) && s'.Pending() <= s.Pending()
    ensures Consistent(c, s')
  {
  }

  lemma EditIsConsistent(c: Config, s: System, s': System, events: seq<string>)
    requires Consistent(c, s) && Edit(c, s, s', events)
    ensures Consistent(c, s')
  {
    EditKeepsEvents(c, s, s', events);
    assert forall e :: e in s'.Pending() <==> e in s.Pending() || e in events;
  }

  lemma FinishIsConsistent(c: Config, s: System, s': System)
    requires Consistent(c, s) && Finish(c, s, s')
    ensures Consistent(c, s')
  {
    assert s'.Pending() == s.Pending();
  }

  lemma WatcherIsConsistent(c: Config, s: System, s': System)
    requires Consistent(c, s) && ((exists e :: Deliver(s, s', e)) || Receive(s, s') || Handle(s, s'))
    ensures Consistent(c, s')
  {
    if e :| Deliver(s, s', e) {
      DeliverKeepsEvents(s, s', e);
    } else if Receive(s, s') {
      ReceiveKeepsEvents(s, s');
    } else {
      HandleKeepsEvents(s, s');
    }
    QuietIsConsistent(c, s, s');
  }

  lemma StepIsConsistent(c: Config, s: System, s': System)
    requires Consistent(c, s) && Step(c, AtAnyTime, s, s')
    ensures Consistent(c, s')
  {
    if events :| Edit(c, s, s', events) {
      EditIsConsistent(c, s, s', events);
    } else if now :| Begin(c, s, s', now) {
      BeginIsConsistent(c, s, s', now);
    } else if Finish(c, s, s') {
      FinishIsConsistent(c, s, s');
    } else {
      WatcherIsConsistent(c, s, s');
    }
  }

  lemma StepIsSound(c: Config, s: System, s': System)
    requires Sound(c, s) && Step(c, AtAnyTime, s, s')
    ensures Sound(c, s')
  {
    StepIsConsistent(c, s, s');
    OverflowStep(c, AtAnyTime, s, s');
    if Background(c, s, s') {
      BackgroundIsSilent(c, s, s');
    } else if Finish(c, s, s') {
      FinishMirrors(c, s, s');
    }
  }

  lemma {:induction false} SoundInRun(c: Config, run: seq<System>, i: nat)
    requires Run(c, AtAnyTime, run) && i < |run|
    ensures Sound(c, run[i])
  {
    if i == 0 {
      InitIsSound(c, run[0]);
    } else {
      SoundInRun(c, run, i - 1);
      assert StepAt(c, AtAnyTime, run, i - 1);
      StepIsSound(c, run[i-1], run[i]);
    }
  }

  // ---------------------------------------------------------------------------------------------
  // The invariant
  // ---------------------------------------------------------------------------------------------

  /** Wherever the memory is out of date, something is pending that will make the server look there. */
  ghost predicate Synchronised(c: Config, s: System)
    requires Consistent(c, s)
  {
    s.memory.lastRescan.Some? && !s.missed ==>
      DifferOnlyAt(s.Effective(), Rescan(c.At(s.fs)), s.Pending())
  }

  ghost predicate Exact(c: Config, s: System)
    requires Consistent(c, s)
  {
    s.asked.Some? && s.inflight.Some? ==> s.inflight.value == Rescan(c.At(s.asked.value))
  }

  ghost predicate Invariant(c: Config, s: System) {
    Sound(c, s) && Synchronised(c, s) && Exact(c, s)
  }

  lemma InitInvariant(c: Config, s: System)
    requires Init(c, s)
    ensures Invariant(c, s)
  {
    InitIsSound(c, s);
  }

  lemma EditKeepsInvariant(c: Config, s: System, s': System, events: seq<string>)
    requires Invariant(c, s) && Edit(c, s, s', events)
    ensures Invariant(c, s')
  {
    EditKeepsEvents(c, s, s', events);
    if s'.memory.lastRescan.Some? && !s'.missed {
      var added := set e | e in events;
      var r, r' := Rescan(c.At(s.fs)), Rescan(c.At(s'.fs));
      forall k ensures Covered(s'.Pending(), k) || SameAt(s.Effective(), r', k) {
        assert Covered(s.Pending(), k) || SameAt(s.Effective(), r, k);
        assert Covered(added, k) || SameAt(r, r', k);
        CoveredUnion(s.Pending(), added, k);
      }
    }
  }

  lemma DeliverKeepsInvariant(c: Config, s: System, s': System, e: string)
    requires Invariant(c, s) && Deliver(s, s', e)
    ensures Invariant(c, s')
  {
    DeliverKeepsEvents(s, s', e);
  }

  lemma CoveredUnion(a: set<string>, b: set<string>, k: string)
    ensures Covered(a + b, k) <==> Covered(a, k) || Covered(b, k)
  {
    if x :| x in a && Covers(x, k) {
      assert x in a + b;
    }
    if x :| x in b && Covers(x, k) {
      assert x in a + b;
    }
  }

  lemma ReceiveKeepsInvariant(c: Config, s: System, s': System)
    requires Invariant(c, s) && Receive(s, s')
    ensures Invariant(c, s')
  {
    ReceiveKeepsEvents(s, s');
  }

  lemma HandleKeepsInvariant(c: Config, s: System, s': System)
    requires Invariant(c, s) && Handle(s, s')
    ensures Invariant(c, s')
  {
    var e := s.held.value;
    HandleKeepsEvents(s, s');
    if s'.memory.lastRescan.Some? && !s'.missed {
      forall k ensures Covered(s'.Pending(), k) || SameAt(s.Effective(), Rescan(c.At(s.fs)), k) {
        assert Covered(s.Pending(), k) || SameAt(s.Effective(), Rescan(c.At(s.fs)), k);
        SuppressionKeepsCoverage(s.memory, e, |s.queue|, k);
        CoveredUnion(s'.Waiting(), s.memory.changes + {e}, k);
        CoveredUnion(s'.Waiting(), s'.memory.changes, k);
        assert s'.Pending() == s'.Waiting() + s'.memory.changes;
      }
    }
  }

  /** A full walk brings about the invariant, whatever was wrong before. */
  lemma WalkRestores(c: Config, s: System, s': System, now: int)
    requires Sound(c, s) && Begin(c, s, s', now) && ShouldRescan(s.memory, now)
    ensures Invariant(c, s') && s'.inflight == Some(Rescan(c.At(s.fs)))
  {
    BeginIsConsistent(c, s, s', now);
    assert forall k :: SameAt(s'.Effective(), Rescan(c.At(s.fs)), k);
  }

  lemma PatchedIsReported(c: Config, s: System, s': System, now: int)
    requires Invariant(c, s) && Begin(c, s, s', now) && !ShouldRescan(s.memory, now) && s.memory.changes != {}
    ensures s'.inflight == Some(Patched(s.memory.watched.value, Rescan(c.At(s.fs)), s.memory.changes))
  {
    var t := s.memory;
    var order :| Orders(order, t.changes) && s'.inflight == Some(AppliedAll(c.At(s.fs), t.watched.value, order));
    forall e | e in t.changes ensures Event(c.base, e) {
      assert e in s.Pending();
    }
    AppliedAllIsPatched(c.At(s.fs), t.watched.value, order, t.changes);
  }

  /** Where the patched state is still out of date, an event is waiting. */
  lemma PatchSynchronises(c: Config, s: System, k: string)
    requires Consistent(c, s) && s.memory.watched.Some? && s.inflight.None? && NoLostOrphan(c, s)
    requires DifferOnlyAt(s.Effective(), Rescan(c.At(s.fs)), s.Pending())
    ensures var r := Rescan(c.At(s.fs));
            Covered(s.Waiting(), k) || SameAt(Patched(s.memory.watched.value, r, s.memory.changes), r, k)
  {
    var t, r := s.memory, Rescan(c.At(s.fs));
    assert Covered(s.Pending(), k) || SameAt(t.watched.value, r, k);
    PatchedAt(t.watched.value, r, t.changes, k);
    CoveredUnion(t.changes, s.Waiting(), k);
  }

  lemma PatchIsExactWhenDrained(c: Config, s: System, s': System)
    requires Consistent(c, s) && s.Drained() && s'.Waiting() == {} && s'.Pending() == {}
    requires DifferOnlyAt(s'.Effective(), Rescan(c.At(s.fs)), s'.Pending())
    ensures s'.Effective() == Rescan(c.At(s.fs))
  {
    SameEverywhere(s'.Effective(), Rescan(c.At(s.fs)));
  }

  lemma BeginPatches(c: Config, s: System, s': System, now: int)
    requires Invariant(c, s) && Begin(c, s, s', now) && !ShouldRescan(s.memory, now) && s.memory.changes != {}
    requires s.missed || NoLostOrphan(c, s)
    ensures Invariant(c, s')
  {
    BeginIsConsistent(c, s, s', now);
    PatchedIsReported(c, s, s', now);
    if s.Drained() {
      assert !s.missed;
    }
    if !s.missed {
      assert s'.Pending() == s.Waiting() == s'.Waiting();
      forall k ensures Covered(s'.Pending(), k) || SameAt(s'.Effective(), Rescan(c.At(s.fs)), k) {
        PatchSynchronises(c, s, k);
      }
      if s.Drained() {
        PatchIsExactWhenDrained(c, s, s');
      }
    }
  }

  lemma BeginKeepsInvariant(c: Config, s: System, s': System, now: int)
    requires Invariant(c, s) && Begin(c, s, s', now) && Permitted(c, WithoutLostOrphans, s, now)
    ensures Invariant(c, s')
  {
    if ShouldRescan(s.memory, now) {
      WalkRestores(c, s, s', now);
    } else if s.memory.changes != {} {
      BeginPatches(c, s, s', now);
    }
  }

  lemma FinishKeepsInvariant(c: Config, s: System, s': System)
    requires Invariant(c, s) && Finish(c, s, s')
    ensures Invariant(c, s')
  {
    FinishMirrors(c, s, s');
  }

  lemma StepKeepsInvariant(c: Config, s: System, s': System)
    requires Invariant(c, s) && Step(c, WithoutLostOrphans, s, s')
    ensures Invariant(c, s')
  {
    if events :| Edit(c, s, s', events) {
      EditKeepsInvariant(c, s, s', events);
    } else if e :| Deliver(s, s', e) {
      DeliverKeepsInvariant(c, s, s', e);
    } else if Receive(s, s') {
      ReceiveKeepsInvariant(c, s, s');
    } else if Handle(s, s') {
      HandleKeepsInvariant(c, s, s');
    } else if now :| Begin(c, s, s', now) && Permitted(c, WithoutLostOrphans, s, now) {
      BeginKeepsInvariant(c, s, s', now);
    } else {
      FinishKeepsInvariant(c, s, s');
    }
  }

  ghost predicate WalkBegins(c: Config, s: System, s': System) {
    exists now :: Begin(c, s, s', now) && ShouldRescan(s.memory, now)
  }

  /** The run starts here, or a request that walks the whole tree has just begun. */
  ghost predicate Restored(c: Config, run: seq<System>, i: nat)
    requires i < |run|
  {
    i == 0 || WalkBegins(c, run[i-1], run[i])
  }

  /** From the start of the run or some full walk on, up to a state, all patches were guarded. */
  ghost predicate GuardedFrom(c: Config, d: Discipline, run: seq<System>, from: nat, to: nat) {
    from <= to < |run| && Restored(c, run, from) && forall i :: from <= i < to ==> StepAt(c, d, run, i)
  }

  ghost predicate Guarded(c: Config, run: seq<System>, to: nat) {
    exists from :: GuardedFrom(c, WithoutLostOrphans, run, from, to)
  }

  lemma WalkInvariant(c: Config, s: System, s': System)
    requires Sound(c, s) && WalkBegins(c, s, s')
    ensures Invariant(c, s')
  {
    var now :| Begin(c, s, s', now) && ShouldRescan(s.memory, now);
    WalkRestores(c, s, s', now);
  }

  lemma RestoredInvariant(c: Config, run: seq<System>, i: nat)
    requires Run(c, AtAnyTime, run) && i < |run| && Restored(c, run, i)
    ensures Invariant(c, run[i])
  {
    if i == 0 {
      InitInvariant(c, run[0]);
    } else {
      SoundInRun(c, run, i - 1);
      WalkInvariant(c, run[i-1], run[i]);
    }
  }

  lemma {:induction false} GuardedSteps(c: Config, run: seq<System>, from: nat, to: nat)
    requires from <= to < |run| && Invariant(c, run[from])
    requires forall i :: from <= i < to ==> StepAt(c, WithoutLostOrphans, run, i)
    ensures Invariant(c, run[to])
  {
    if from < to {
      GuardedSteps(c, run, from, to - 1);
      assert StepAt(c, WithoutLostOrphans, run, to - 1);
      StepKeepsInvariant(c, run[to-1], run[to]);
    }
  }

  /** Main result: in any run, once a full walk has begun, wherever the memory is out of date a pending path covers it, as
      long as patches are guarded; whatever happened before. */
  lemma InvariantInRun(c: Config, run: seq<System>, i: nat)
    requires Run(c, AtAnyTime, run) && Guarded(c, run, i)
    ensures i < |run| && Invariant(c, run[i])
  {
    var from :| GuardedFrom(c, WithoutLostOrphans, run, from, i);
    RestoredInvariant(c, run, from);
    GuardedSteps(c, run, from, i);
  }

  /** In particular, if all patches of the run are guarded. */
  lemma GuardedRuns(c: Config, run: seq<System>, i: nat)
    requires Run(c, WithoutLostOrphans, run) && i < |run|
    ensures Run(c, AtAnyTime, run) && Guarded(c, run, i)
  {
    forall j | 0 <= j < |run| - 1 ensures StepAt(c, AtAnyTime, run, j) {
      assert StepAt(c, WithoutLostOrphans, run, j);
    }
    assert GuardedFrom(c, WithoutLostOrphans, run, 0, i);
  }

  // ---------------------------------------------------------------------------------------------
  // Mirror correctness
  // ---------------------------------------------------------------------------------------------

  /** Main result: when a request that found no event waiting is through, the client holds exactly what a full walk of
      the tree, as it was when the request began, records. Edits, events and watcher steps may have happened since. */
  lemma ClientMirrorsTree(c: Config, run: seq<System>, i: nat)
    requires Run(c, AtAnyTime, run) && i + 1 < |run| && Guarded(c, run, i)
    requires Finish(c, run[i], run[i+1]) && run[i].asked.Some?
    ensures WellFormed(run[i].asked.value, c.base)
    ensures Mirrors(run[i+1].client, c.base, Rescan(c.At(run[i].asked.value)))
  {
    InvariantInRun(c, run, i);
    FinishMirrors(c, run[i], run[i+1]);
  }

  /** Nor is anything missing when such a request finds nothing to report. */
  lemma NothingToReport(c: Config, run: seq<System>, i: nat, now: int)
    requires Run(c, AtAnyTime, run) && i + 1 < |run| && Guarded(c, run, i)
    requires Begin(c, run[i], run[i+1], now) && run[i].Drained() && run[i+1].inflight.None?
    ensures WellFormed(run[i].fs, c.base)
    ensures Mirrors(run[i+1].client, c.base, Rescan(c.At(run[i].fs)))
  {
    InvariantInRun(c, run, i);
    NothingPending(c, run[i]);
  }

  lemma NothingPending(c: Config, s: System)
    requires Invariant(c, s) && s.Drained() && s.memory.changes == {} && s.memory.lastRescan.Some? && !s.missed
    ensures s.Effective() == Rescan(c.At(s.fs))
  {
    assert s.Pending() == {};
    SameEverywhere(s.Effective(), Rescan(c.At(s.fs)));
  }

  // ---------------------------------------------------------------------------------------------
  // The guard is exact
  // ---------------------------------------------------------------------------------------------

  /** A lost orphan stays in the patched state, and nothing is pending that would make the server look there. */
  lemma LostOrphanStays(c: Config, s: System, s': System, now: int) returns (k: string)
    requires Invariant(c, s) && Begin(c, s, s', now) && !ShouldRescan(s.memory, now) && s.memory.changes != {}
    requires !NoLostOrphan(c, s)
    ensures s'.inflight.Some? && k in s'.inflight.value && k !in Rescan(c.At(s.fs)) && !Covered(s'.Pending(), k)
  {
    PatchedIsReported(c, s, s', now);
    var t, r := s.memory, Rescan(c.At(s.fs));
    k :| Orphan(t.watched.value, t.changes, k) && k !in r && !Covered(s.Waiting(), k);
    PatchedAt(t.watched.value, r, t.changes, k);
    assert s'.Pending() == s.Waiting();
  }

  lemma NotSynchronised(c: Config, s: System, k: string)
    requires Consistent(c, s) && !s.missed && s.memory.lastRescan.Some?
    requires k in s.Effective() && k !in Rescan(c.At(s.fs)) && !Covered(s.Pending(), k)
    ensures !Invariant(c, s)
  {
    assert !SameAt(s.Effective(), Rescan(c.At(s.fs)), k);
  }

  /** Main result: a patch that starts in a good state leads to a good state exactly if no orphan is lost. */
  lemma GuardIsExact(c: Config, s: System, s': System, now: int)
    requires Invariant(c, s) && Begin(c, s, s', now) && !ShouldRescan(s.memory, now) && s.memory.changes != {}
    requires !s.missed
    ensures Invariant(c, s') <==> NoLostOrphan(c, s)
  {
    if NoLostOrphan(c, s) {
      BeginPatches(c, s, s', now);
    } else {
      BeginIsConsistent(c, s, s', now);
      var k := LostOrphanStays(c, s, s', now);
      NotSynchronised(c, s', k);
    }
  }

  /** With no event waiting: what is reported is what a full walk records, exactly under the guard. */
  lemma ReportIsRescanExactly(c: Config, s: System, s': System, now: int)
    requires Invariant(c, s) && Begin(c, s, s', now) && s.Drained() && s'.inflight.Some?
    ensures s'.inflight.value == Rescan(c.At(s.fs)) <==> ShouldRescan(s.memory, now) || NoLostOrphan(c, s)
    ensures !ShouldRescan(s.memory, now) && !NoLostOrphan(c, s) ==>
              exists k :: k in s'.inflight.value && k !in Rescan(c.At(s.fs))
  {
    if !ShouldRescan(s.memory, now) {
      if NoLostOrphan(c, s) {
        DrainedPatchIsRescan(c, s, s', now);
      } else {
        var k := LostOrphanStays(c, s, s', now);
      }
    }
  }

  lemma DrainedPatchIsRescan(c: Config, s: System, s': System, now: int)
    requires Invariant(c, s) && Begin(c, s, s', now) && s.Drained() && s'.inflight.Some?
    requires !ShouldRescan(s.memory, now) && NoLostOrphan(c, s)
    ensures s'.inflight.value == Rescan(c.At(s.fs))
  {
    BeginPatches(c, s, s', now);
    assert !s'.missed && s'.Drained() && s'.memory.changes == {};
    NothingPending(c, s');
  }

  /** No request ends between these states. */
  ghost predicate Unfinished(c: Config, run: seq<System>, from: nat, to: nat)
    requires from <= to < |run|
  {
    forall i :: from <= i < to ==> !Finish(c, run[i], run[i+1])
  }

  lemma StepKeepsRequest(c: Config, s: System, s': System)
    requires Step(c, AtAnyTime, s, s') && !Finish(c, s, s') && s.inflight.Some?
    ensures SameRequest(s, s')
  {
    if Background(c, s, s') {
      BackgroundIsSilent(c, s, s');
    }
  }

  /** Nothing but its end changes what a running request will deliver, and to whom. */
  lemma {:induction false} RequestRuns(c: Config, run: seq<System>, from: nat, to: nat)
    requires Run(c, AtAnyTime, run) && from <= to < |run| && Unfinished(c, run, from, to) && run[from].inflight.Some?
    ensures SameRequest(run[from], run[to])
  {
    if from < to {
      RequestRuns(c, run, from, to - 1);
      assert StepAt(c, AtAnyTime, run, to - 1);
      StepKeepsRequest(c, run[to-1], run[to]);
    }
  }

  lemma DifferentMirrors(client: ClientState, base: string, a: FileState, b: FileState, k: string)
    requires Keyed(base, a) && Mirrors(client, base, a) && k in a && k !in b
    ensures !Mirrors(client, base, b)
  {
    var r := k[|base|..];
    assert base + r == k;
    assert MirrorsAt(client, base, a, r) && !MirrorsAt(client, base, b, r);
  }

  /** What a request has found is what the client holds when it is through. */
  lemma RequestDelivers(c: Config, run: seq<System>, begin: nat, end: nat)
    requires Run(c, AtAnyTime, run) && begin <= end && end + 1 < |run| && run[begin].inflight.Some?
    requires Unfinished(c, run, begin, end) && Finish(c, run[end], run[end+1])
    ensures Mirrors(run[end+1].client, c.base, run[begin].inflight.value)
  {
    SoundInRun(c, run, end);
    RequestRuns(c, run, begin, end);
    FinishMirrors(c, run[end], run[end+1]);
  }

  lemma WalkFinds(c: Config, run: seq<System>, begin: nat, now: int)
    requires Run(c, AtAnyTime, run) && begin + 1 < |run|
    requires Begin(c, run[begin], run[begin+1], now) && ShouldRescan(run[begin].memory, now)
    ensures run[begin+1].inflight == Some(Rescan(c.At(run[begin].fs)))
  {
    SoundInRun(c, run, begin);
    WalkRestores(c, run[begin], run[begin+1], now);
  }

  /** Main result: a request that walks the whole tree repairs everything. In any run, whatever was patched, dropped or
      waiting when it began, the client holds what the walk has recorded when it is through. */
  lemma WalkIsDelivered(c: Config, run: seq<System>, begin: nat, end: nat, now: int)
    requires Run(c, AtAnyTime, run) && begin < end && end + 1 < |run|
    requires Begin(c, run[begin], run[begin+1], now) && ShouldRescan(run[begin].memory, now)
    requires Unfinished(c, run, begin + 1, end) && Finish(c, run[end], run[end+1])
    ensures Mirrors(run[end+1].client, c.base, Rescan(c.At(run[begin].fs)))
  {
    WalkFinds(c, run, begin, now);
    RequestDelivers(c, run, begin + 1, end);
  }

  lemma PatchDeliveredExactly(c: Config, s: System, s': System, now: int, client: ClientState)
    requires Invariant(c, s) && Begin(c, s, s', now) && s.Drained() && s'.inflight.Some?
    requires !ShouldRescan(s.memory, now) && Mirrors(client, c.base, s'.inflight.value)
    ensures Mirrors(client, c.base, Rescan(c.At(s.fs))) <==> NoLostOrphan(c, s)
  {
    BeginIsConsistent(c, s, s', now);
    ReportIsRescanExactly(c, s, s', now);
    if !NoLostOrphan(c, s) {
      var k :| k in s'.inflight.value && k !in Rescan(c.At(s.fs));
      DifferentMirrors(client, c.base, s'.inflight.value, Rescan(c.At(s.fs)), k);
    }
  }

  lemma PatchFoundExactly(c: Config, run: seq<System>, begin: nat, now: int, client: ClientState)
    requires Run(c, AtAnyTime, run) && begin + 1 < |run| && Guarded(c, run, begin) && run[begin].Drained()
    requires Begin(c, run[begin], run[begin+1], now) && run[begin+1].inflight.Some? && !ShouldRescan(run[begin].memory, now)
    requires Mirrors(client, c.base, run[begin+1].inflight.value)
    ensures Mirrors(client, c.base, Rescan(c.At(run[begin].fs))) <==> NoLostOrphan(c, run[begin])
  {
    InvariantInRun(c, run, begin);
    PatchDeliveredExactly(c, run[begin], run[begin+1], now, client);
  }

  /** Main result, over whole runs: let a request that patches begin with no event waiting, after a run whose patches were
      guarded at least since the last full walk. Whatever happens until it is through, the client then holds what a full
      walk would have recorded when it began, if and only if it met no lost orphan. */
  lemma ClientMirrorsExactly(c: Config, run: seq<System>, begin: nat, end: nat, now: int)
    requires Run(c, AtAnyTime, run) && begin < end && end + 1 < |run|
    requires ShouldRescan(run[begin].memory, now) || (Guarded(c, run, begin) && run[begin].Drained())
    requires Begin(c, run[begin], run[begin+1], now) && run[begin+1].inflight.Some?
    requires Unfinished(c, run, begin + 1, end) && Finish(c, run[end], run[end+1])
    ensures Mirrors(run[end+1].client, c.base, Rescan(c.At(run[begin].fs)))
            <==> ShouldRescan(run[begin].memory, now) || NoLostOrphan(c, run[begin])
  {
    if ShouldRescan(run[begin].memory, now) {
      WalkIsDelivered(c, run, begin, end, now);
    } else {
      RequestDelivers(c, run, begin + 1, end);
      PatchFoundExactly(c, run, begin, now, run[end+1].client);
    }
  }

  // ---------------------------------------------------------------------------------------------
  // The cheap answer
  // ---------------------------------------------------------------------------------------------

  /** The cheap answer is sound: if no request is running, no event is waiting and ChangesCount says 0, then any request,
      at any time, would find no difference; also one that happens to walk the whole tree. */
  lemma CountZeroIsSound(c: Config, run: seq<System>, i: nat, now: int, t': Tracker, reported: Option<FileState>)
    requires Run(c, AtAnyTime, run) && i < |run| && Guarded(c, run, i)
    requires run[i].inflight.None? && run[i].Drained()
    requires run[i].memory.lastRescan.Some? && run[i].memory.changes == {}
    requires c.At(run[i].fs).Valid() && WatchRound(c.At(run[i].fs), run[i].memory, now, t', reported)
    ensures reported.Some? ==> DiffKeys(StateOf(run[i].memory.watched), reported.value) == {}
  {
    InvariantInRun(c, run, i);
    NothingPending(c, run[i]);
  }

  // ---------------------------------------------------------------------------------------------
  // Patching only when no event is waiting is enough
  // ---------------------------------------------------------------------------------------------

  /** What is remembered, or will be once the running request is through, has all directories of its entries. */
  ghost predicate ClosedMemory(c: Config, s: System) {
    Closed(c.base, s.Effective())
  }

  lemma DrainedIsWithoutLostOrphans(c: Config, s: System, now: int)
    requires Invariant(c, s) && ClosedMemory(c, s) && s.inflight.None? && Permitted(c, WhenDrained, s, now)
    ensures Permitted(c, WithoutLostOrphans, s, now)
  {
    forall e | e in s.memory.changes ensures Event(c.base, e) {
      assert e in s.Pending();
    }
    ClosedHasNoOrphans(c.base, StateOf(s.memory.watched), s.memory.changes);
  }

  lemma DrainedBeginIsClosed(c: Config, s: System, s': System, now: int)
    requires Invariant(c, s) && ClosedMemory(c, s) && Begin(c, s, s', now) && Permitted(c, WhenDrained, s, now)
    ensures ClosedMemory(c, s')
  {
    DrainedIsWithoutLostOrphans(c, s, now);
    BeginKeepsInvariant(c, s, s', now);
    RescanIsClosed(c.At(s.fs));
    if s'.inflight.Some? && !ShouldRescan(s.memory, now) {
      ReportIsRescanExactly(c, s, s', now);
    }
  }

  lemma CalmStepIsGuarded(c: Config, s: System, s': System)
    requires Invariant(c, s) && ClosedMemory(c, s) && Step(c, WhenDrained, s, s')
    ensures Step(c, WithoutLostOrphans, s, s')
  {
    if now :| Begin(c, s, s', now) && Permitted(c, WhenDrained, s, now) {
      DrainedIsWithoutLostOrphans(c, s, now);
    }
  }

  lemma CalmStepKeepsClosed(c: Config, s: System, s': System)
    requires Invariant(c, s) && ClosedMemory(c, s) && Step(c, WhenDrained, s, s')
    ensures ClosedMemory(c, s')
  {
    if now :| Begin(c, s, s', now) && Permitted(c, WhenDrained, s, now) {
      DrainedBeginIsClosed(c, s, s', now);
    } else if Background(c, s, s') {
      BackgroundIsSilent(c, s, s');
    } else {
      assert s'.Effective() == s.Effective();
    }
  }

  lemma WalkIsClosed(c: Config, s: System, s': System)
    requires Sound(c, s) && WalkBegins(c, s, s')
    ensures ClosedMemory(c, s')
  {
    var now :| Begin(c, s, s', now) && ShouldRescan(s.memory, now);
    WalkRestores(c, s, s', now);
    RescanIsClosed(c.At(s.fs));
  }

  lemma RestoredIsClosed(c: Config, run: seq<System>, i: nat)
    requires Run(c, AtAnyTime, run) && i < |run| && Restored(c, run, i)
    ensures ClosedMemory(c, run[i])
  {
    if i > 0 {
      SoundInRun(c, run, i - 1);
      WalkIsClosed(c, run[i-1], run[i]);
    }
  }

  lemma CalmStepKeeps(c: Config, s: System, s': System)
    requires Invariant(c, s) && ClosedMemory(c, s) && Step(c, WhenDrained, s, s')
    ensures Invariant(c, s') && ClosedMemory(c, s')
  {
    CalmStepIsGuarded(c, s, s');
    StepKeepsInvariant(c, s, s');
    CalmStepKeepsClosed(c, s, s');
  }

  lemma {:induction false} DrainedStates(c: Config, run: seq<System>, from: nat, to: nat)
    requires from <= to < |run| && Invariant(c, run[from]) && ClosedMemory(c, run[from])
    requires forall i :: from <= i < to ==> StepAt(c, WhenDrained, run, i)
    ensures Invariant(c, run[to]) && ClosedMemory(c, run[to])
  {
    if from < to {
      DrainedStates(c, run, from, to - 1);
      assert StepAt(c, WhenDrained, run, to - 1);
      CalmStepKeeps(c, run[to-1], run[to]);
    }
  }

  lemma DrainedStepAt(c: Config, run: seq<System>, from: nat, i: nat)
    requires from <= i && i + 1 < |run| && Invariant(c, run[from]) && ClosedMemory(c, run[from])
    requires forall j :: from <= j <= i ==> StepAt(c, WhenDrained, run, j)
    ensures StepAt(c, WithoutLostOrphans, run, i)
  {
    DrainedStates(c, run, from, i);
    assert StepAt(c, WhenDrained, run, i);
    CalmStepIsGuarded(c, run[i], run[i+1]);
  }

  /** Main result: as long as patching starts only when no event is waiting, from the start of a run or any full walk in it
      on, no orphan is ever met. */
  lemma DrainedRunsAreGuarded(c: Config, run: seq<System>, from: nat, to: nat)
    requires Run(c, AtAnyTime, run) && GuardedFrom(c, WhenDrained, run, from, to)
    ensures GuardedFrom(c, WithoutLostOrphans, run, from, to)
  {
    RestoredInvariant(c, run, from);
    RestoredIsClosed(c, run, from);
    forall i | from <= i < to ensures StepAt(c, WithoutLostOrphans, run, i) {
      DrainedStepAt(c, run, from, i);
    }
  }
}
