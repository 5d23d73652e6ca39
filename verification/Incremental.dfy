/** Patching the remembered state at the changed paths, compared with walking the whole tree again. */
module Incremental {
  import opened Paths
  import opened Walk
  import opened ChangeStreaming
  import opened Downstream
  import opened Wrappers

  /** The path of a watch event strictly below the base. */
  predicate Event(base: string, c: string) {
    Above(base, c) && c[|c|-1] != '/'
  }

  /** The scans for which patching is meant to replace walking. */
  ghost predicate Patchable(s: Scan) {
    s.Valid() && !s.noRecursive && SkipsSubtrees(s)
  }

  ghost function Rescan(s: Scan): FileState
    requires s.Valid()
  {
    s.Walked(s.base)
  }

  /** Looking at a changed path puts in exactly the part of a full walk at and below it. */
  lemma FoundIsPartOfRescan(s: Scan, p: string)
    requires Patchable(s) && Event(s.base, p)
    ensures Found(s, p) == map k | k in Rescan(s) && Covers(p, k) :: Rescan(s)[k]
  {
    var part := map k | k in Rescan(s) && Covers(p, k) :: Rescan(s)[k];
    forall k ensures k in Found(s, p) <==> k in part {
      if k in s.fs && Covers(p, k) {
        AboveTransitive(s.base, p, k);
        assert Above(p, k) ==> p in s.fs && s.fs[p].DirStat?;
        if p in s.fs {
          OpenBelow(s, p, k);
        }
      }
    }
  }

  lemma OpenBelow(s: Scan, p: string, k: string)
    requires Patchable(s) && Event(s.base, p) && p in s.fs && k in s.fs && Covers(p, k)
    ensures s.Open(s.base, k) <==> !s.Skips(p) && s.Open(p, k)
  {
    if !s.Skips(p) && s.Open(p, k) {
      forall q | q in s.fs && Above(s.base, q) && Covers(q, k) ensures !s.Skips(q) {
        CoversComparable(p, q, k);
      }
    }
    if s.Open(s.base, k) {
      forall q | q in s.fs && Above(p, q) && Covers(q, k) ensures !s.Skips(q) {
        AboveTransitive(s.base, p, q);
      }
    }
  }

  // ---------------------------------------------------------------------------------------------
  // What a list of changes amounts to, whatever its order
  // ---------------------------------------------------------------------------------------------

  /** A remembered entry at or below a changed path that none of the changes throws away. */
  ghost predicate Orphan(watched: FileState, changes: set<string>, k: string) {
    k in watched && Covered(changes, k) && forall c :: c in changes ==> !Dirtied(watched, c, k)
  }

  ghost function Patched(watched: FileState, rescan: FileState, changes: set<string>): FileState {
    map k | k in watched.Keys + rescan.Keys
            && (if Covered(changes, k) then k in rescan || Orphan(watched, changes, k) else k in watched)
      :: if Covered(changes, k) && k in rescan then rescan[k] else watched[k]
  }

  lemma CoveredMore(changes: set<string>, c: string, k: string)
    ensures Covered(changes + {c}, k) <==> Covered(changes, k) || Covers(c, k)
  {
    if Covers(c, k) {
      assert c in changes + {c};
    }
    if x :| x in changes && Covers(x, k) {
      assert x in changes + {c};
    }
  }

  lemma PatchedStep(s: Scan, watched: FileState, done: set<string>, c: string)
    requires Patchable(s) && Event(s.base, c)
    ensures Under(s.base, c)
    ensures Applied(s, watched, Patched(watched, Rescan(s), done), c) == Patched(watched, Rescan(s), done + {c})
  {
    var before, after := Patched(watched, Rescan(s), done), Patched(watched, Rescan(s), done + {c});
    var applied := Applied(s, watched, before, c);
    FoundIsPartOfRescan(s, c);
    forall k ensures SameAt(applied, after, k) {
      PatchedStepAt(s, watched, done, c, k);
    }
    SameEverywhere(applied, after);
  }

  lemma PatchedStepAt(s: Scan, watched: FileState, done: set<string>, c: string, k: string)
    requires Patchable(s) && Event(s.base, c)
    requires Found(s, c) == map k | k in Rescan(s) && Covers(c, k) :: Rescan(s)[k]
    ensures SameAt(Applied(s, watched, Patched(watched, Rescan(s), done), c), Patched(watched, Rescan(s), done + {c}), k)
  {
    CoveredMore(done, c, k);
    assert Dirtied(watched, c, k) ==> Covers(c, k);
    assert (forall x :: x in done + {c} ==> !Dirtied(watched, x, k))
      <==> (forall x :: x in done ==> !Dirtied(watched, x, k)) && !Dirtied(watched, c, k);
    if !Covered(done, k) {
      assert forall x :: x in done ==> !Dirtied(watched, x, k);
    }
  }

  /** The result of applying the changes does not depend on the order in which they are applied. */
  lemma {:induction false} AppliedAllIsPatched(s: Scan, watched: FileState, order: seq<string>, changes: set<string>)
    requires Patchable(s) && Orders(order, changes) && forall c :: c in changes ==> Event(s.base, c)
    ensures forall c :: c in order ==> Under(s.base, c)
    ensures AppliedAll(s, watched, order) == Patched(watched, Rescan(s), changes)
  {
    if order == [] {
      assert changes == {};
      assert Patched(watched, Rescan(s), {}) == watched;
    } else {
      var rest, c := order[..|order|-1], order[|order|-1];
      assert order == rest + [c] && c in order;
      forall x ensures x in rest <==> x in changes - {c} {
      }
      AppliedAllIsPatched(s, watched, rest, changes - {c});
      PatchedStep(s, watched, changes - {c}, c);
      assert changes - {c} + {c} == changes;
    }
  }

  // ---------------------------------------------------------------------------------------------
  // Incremental equals rescan
  // ---------------------------------------------------------------------------------------------

  /** Every path on which the two states differ lies at or below one of the changes. */
  ghost predicate DifferOnlyAt(a: FileState, b: FileState, changes: set<string>) {
    forall k :: Covered(changes, k) || SameAt(a, b, k)
  }

  lemma PatchedAt(watched: FileState, rescan: FileState, changes: set<string>, k: string)
    ensures !Covered(changes, k) ==> SameAt(Patched(watched, rescan, changes), watched, k)
    ensures Covered(changes, k) && (Orphan(watched, changes, k) ==> k in rescan) ==>
              SameAt(Patched(watched, rescan, changes), rescan, k)
    ensures Orphan(watched, changes, k) && k !in rescan ==> k in Patched(watched, rescan, changes)
  {
  }

  /** Main result: if the changes cover every difference between the remembered state and the tree, applying them in
      any order gives what a full walk would give, exactly if every orphan still exists. */
  lemma IncrementalIsRescan(s: Scan, watched: FileState, order: seq<string>, changes: set<string>)
    requires Patchable(s) && Orders(order, changes) && forall c :: c in changes ==> Event(s.base, c)
    requires DifferOnlyAt(watched, Rescan(s), changes)
    ensures forall c :: c in order ==> Under(s.base, c)
    ensures AppliedAll(s, watched, order) == Rescan(s)
            <==> (forall k :: Orphan(watched, changes, k) ==> k in Rescan(s))
  {
    AppliedAllIsPatched(s, watched, order, changes);
    PatchedIsRescan(watched, Rescan(s), changes);
  }

  lemma PatchedIsRescan(watched: FileState, rescan: FileState, changes: set<string>)
    requires DifferOnlyAt(watched, rescan, changes)
    ensures Patched(watched, rescan, changes) == rescan
            <==> (forall k :: Orphan(watched, changes, k) ==> k in rescan)
  {
    var p := Patched(watched, rescan, changes);
    forall k ensures Orphan(watched, changes, k) && k !in rescan ==> k in p {
      PatchedAt(watched, rescan, changes, k);
    }
    if forall k :: Orphan(watched, changes, k) ==> k in rescan {
      forall k ensures SameAt(p, rescan, k) {
        PatchedAt(watched, rescan, changes, k);
        assert Covered(changes, k) || SameAt(watched, rescan, k);
      }
      SameEverywhere(p, rescan);
    }
  }

  /** A state in which every entry is reached through recorded directories. */
  ghost predicate Closed(base: string, m: FileState) {
    forall k, p :: k in m && Above(base, p) && Above(p, k) ==> p in m && m[p].isDir
  }

  /** What a full walk records is closed, unless ignored directories are walked through. */
  lemma RescanIsClosed(s: Scan)
    requires Patchable(s) && (s.matcher.None? || !s.matcher.value.requireFullScan)
    ensures Closed(s.base, Rescan(s))
  {
    forall k, p | k in Rescan(s) && Above(s.base, p) && Above(p, k)
      ensures p in Rescan(s) && Rescan(s)[p].isDir
    {
      RecordedHasOpenAncestors(s, k, p);
    }
  }

  lemma ClosedHasNoOrphans(base: string, watched: FileState, changes: set<string>)
    requires Closed(base, watched) && forall c :: c in changes ==> Event(base, c)
    ensures forall k :: !Orphan(watched, changes, k)
  {
    forall k | Covered(changes, k) && k in watched ensures exists c :: c in changes && Dirtied(watched, c, k) {
      var c :| c in changes && Covers(c, k);
      assert Dirtied(watched, c, k);
    }
  }

  /** In particular: patching the outcome of one full walk gives the outcome of the next. */
  lemma RescanThenPatch(old_: Scan, new_: Scan, order: seq<string>, changes: set<string>)
    requires Patchable(old_) && Patchable(new_) && old_.base == new_.base
    requires old_.matcher.None? || !old_.matcher.value.requireFullScan
    requires Orders(order, changes) && forall c :: c in changes ==> Event(new_.base, c)
    requires DifferOnlyAt(Rescan(old_), Rescan(new_), changes)
    ensures forall c :: c in order ==> Under(new_.base, c)
    ensures AppliedAll(new_, Rescan(old_), order) == Rescan(new_)
  {
    RescanIsClosed(old_);
    ClosedHasNoOrphans(old_.base, Rescan(old_), changes);
    IncrementalIsRescan(new_, Rescan(old_), order, changes);
  }

  // ---------------------------------------------------------------------------------------------
  // Where the two differ
  // ---------------------------------------------------------------------------------------------

  /** What an event on the base itself amounts to, as long as the base is not remembered: nothing, if the matcher ignores
      the base and requires no full scan; otherwise a full walk over the old entries, and an entry for the base unless it
      is ignored. */
  lemma EventOnBase(s: Scan, watched: FileState, state: FileState, c: string)
    requires s.Valid() && TrimSlash(c) == s.base && s.base !in watched
    ensures Under(s.base, c)
    ensures var ignored := Ignored(s.base, s.matcher, s.base, true);
            Applied(s, watched, state, c) ==
              if ignored && !s.matcher.value.requireFullScan then state
              else if ignored then state + Rescan(s)
              else state + Rescan(s) + map[s.base := Entry(s.base, DirStat)]
  {
    var kept := map k | k in state && !Dirtied(watched, s.base, k) :: state[k];
    assert kept == state;
    assert Rescan(s) + map[s.base := Entry(s.base, DirStat)] == map[s.base := Entry(s.base, DirStat)] + Rescan(s);
    assert state + map[] == state && map[] + Rescan(s) == Rescan(s);
    MapPlusAssociates(state, Rescan(s), map[s.base := Entry(s.base, DirStat)]);
  }

  /** After such an event there is an entry for the base, which no walk records, if and only if the base is not ignored;
      whatever else has changed. */
  lemma {:induction false} EventOnBaseStays(s: Scan, watched: FileState, order: seq<string>)
    requires s.Valid() && s.base !in watched
    requires (forall c :: c in order ==> Under(s.base, c)) && exists c :: c in order && TrimSlash(c) == s.base
    ensures s.base !in Rescan(s)
    ensures s.base in AppliedAll(s, watched, order) <==> !Ignored(s.base, s.matcher, s.base, true)
  {
    if Ignored(s.base, s.matcher, s.base, true) {
      NoEntryForBase(s, watched, order);
    } else {
      EntryForBase(s, watched, order);
    }
  }

  lemma {:induction false} EntryForBase(s: Scan, watched: FileState, order: seq<string>)
    requires s.Valid() && s.base !in watched && !Ignored(s.base, s.matcher, s.base, true)
    requires (forall c :: c in order ==> Under(s.base, c)) && exists c :: c in order && TrimSlash(c) == s.base
    ensures s.base in AppliedAll(s, watched, order)
  {
    var rest, last := order[..|order|-1], order[|order|-1];
    assert order == rest + [last];
    if TrimSlash(last) == s.base {
      assert s.base in Found(s, s.base);
    } else {
      EntryForBase(s, watched, rest);
      assert Under(s.base, last) && Above(s.base, TrimSlash(last));
      assert !Dirtied(watched, TrimSlash(last), s.base);
    }
  }

  lemma {:induction false} NoEntryForBase(s: Scan, watched: FileState, order: seq<string>)
    requires s.Valid() && s.base !in watched && Ignored(s.base, s.matcher, s.base, true)
    requires forall c :: c in order ==> Under(s.base, c)
    ensures s.base !in AppliedAll(s, watched, order)
  {
    if order != [] {
      var rest, last := order[..|order|-1], order[|order|-1];
      assert order == rest + [last];
      NoEntryForBase(s, watched, rest);
      assert Under(s.base, last);
      assert s.base !in Found(s, TrimSlash(last));
    }
  }

  /** With a matcher that requires a full scan the remembered state need not be closed. Here the directory `d` is ignored
      and the file `f` in it is not; when both are gone, the event on `d` leaves the entry for `f` behind. */
  lemma FullScanLeavesOrphan(base: string, d: string, f: string, stat: Stat)
    requires DirectoryWithFile(base, d, f) && stat.FileStat?
    ensures var m := Matcher((r, isDir) => r == d[|base|..], true);
            var before := Scan(map[d := DirStat, f := stat], base, Some(m), false);
            var after := Scan(map[], base, Some(m), false);
            && Patchable(before) && Patchable(after)
            && DifferOnlyAt(Rescan(before), Rescan(after), {d})
            && AppliedAll(after, Rescan(before), [d]) != Rescan(after)
  {
    var m := Matcher((r, isDir) => r == d[|base|..], true);
    var before := Scan(map[d := DirStat, f := stat], base, Some(m), false);
    var after := Scan(map[], base, Some(m), false);
    SmallTree(base, d, f, stat);
    assert before.Recorded(base, f) && !before.Recorded(base, d);
    assert Rescan(before).Keys == {f} && Rescan(after) == map[];
    assert Covered({d}, f);
    IncrementalIsRescan(after, Rescan(before), [d], {d});
    assert Orphan(Rescan(before), {d}, f);
  }
}
