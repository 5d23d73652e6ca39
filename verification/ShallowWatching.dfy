/** Patching the remembered state when only the base directory itself is watched: a walk then records the base's direct
    children, and events lie on these. */
module ShallowWatching {
  import opened Paths
  import opened Walk
  import opened ChangeStreaming
  import opened Downstream
  import opened Incremental
  import opened Sequences
  import opened Wrappers

  /** The path of a watch event when the watch is not recursive. */
  predicate ChildEvent(base: string, c: string) {
    DirectChild(base, c) && c[|c|-1] != '/'
  }

  ghost predicate Shallow(s: Scan) {
    s.Valid() && s.noRecursive
  }

  lemma ChildIsUnder(base: string, c: string)
    requires ChildEvent(base, c)
    ensures TrimSlash(c) == c && Under(base, c)
  {
  }

  /** At most one direct child covers a path. */
  lemma OneChildCovers(base: string, c: string, x: string, k: string)
    requires ChildEvent(base, c) && ChildEvent(base, x) && Covers(c, k) && Covers(x, k)
    ensures c == x
  {
    CoversComparable(c, x, k);
    NothingBetween(base, c, x);
    NothingBetween(base, x, c);
  }

  /** What a change at `c` makes of the remembered entry at `k`. */
  ghost predicate LookedAt(s: Scan, watched: FileState, after: FileState, c: string, k: string)
    requires s.Valid() && s.base <= c
  {
    if k in Found(s, c) then k in after && after[k] == Found(s, c)[k]
    else if Dirtied(watched, c, k) then k !in after
    else SameAt(after, watched, k)
  }

  lemma FoundIsCovered(s: Scan, c: string, k: string)
    requires s.Valid() && s.base <= c && k in Found(s, c)
    ensures Covers(c, k)
  {
  }

  lemma OneChange(s: Scan, watched: FileState, before: FileState, c: string, k: string)
    requires Shallow(s) && ChildEvent(s.base, c)
    ensures Under(s.base, c)
    ensures !Covers(c, k) ==> SameAt(Applied(s, watched, before, c), before, k)
    ensures SameAt(before, watched, k) ==> LookedAt(s, watched, Applied(s, watched, before, c), c, k)
  {
    ChildIsUnder(s.base, c);
    if k in Found(s, c) {
      FoundIsCovered(s, c, k);
    }
  }

  lemma OnlyTheLast(base: string, rest: seq<string>, last: string, k: string)
    requires (forall c :: c in rest ==> ChildEvent(base, c)) && ChildEvent(base, last) && last !in rest && Covers(last, k)
    ensures forall c :: c in rest ==> !Covers(c, k)
  {
    forall c | c in rest ensures !Covers(c, k) {
      if Covers(c, k) {
        OneChildCovers(base, c, last, k);
      }
    }
  }

  /** The outcome of a list of such changes: at and below each of them, and elsewhere. */
  lemma {:induction false} AllChanges(s: Scan, watched: FileState, order: seq<string>, k: string)
    requires Shallow(s) && (forall c :: c in order ==> ChildEvent(s.base, c))
    requires Distinct(order)
    ensures forall c :: c in order ==> Under(s.base, c)
    ensures (forall c :: c in order ==> !Covers(c, k)) ==> SameAt(AppliedAll(s, watched, order), watched, k)
    ensures forall c :: c in order && Covers(c, k) ==> LookedAt(s, watched, AppliedAll(s, watched, order), c, k)
  {
    if order != [] {
      var rest, last := order[..|order|-1], order[|order|-1];
      assert order == rest + [last];
      AllChanges(s, watched, rest, k);
      OneChange(s, watched, AppliedAll(s, watched, rest), last, k);
      forall c | c in order && Covers(c, k) ensures LookedAt(s, watched, AppliedAll(s, watched, order), c, k) {
        if c != last && Covers(last, k) {
          OneChildCovers(s.base, c, last, k);
        }
        if c == last {
          OnlyTheLast(s.base, rest, last, k);
        }
      }
    }
  }

  /** The walk records a direct child just as looking at it does, and nothing below it. */
  lemma FoundAtChild(s: Scan, c: string, k: string)
    requires Shallow(s) && ChildEvent(s.base, c) && Covers(c, k)
    ensures k == c ==> SameAt(Found(s, c), Rescan(s), k)
    ensures k != c ==> k !in Rescan(s)
  {
    if k == c {
      if c in s.fs {
        assert s.Open(s.base, c) <==> !s.Skips(c) by {
          forall q | q in s.fs && Above(s.base, q) && Covers(q, c) ensures q == c {
            NothingBetween(s.base, q, c);
          }
        }
      }
    } else {
      AboveTransitive(s.base, c, k);
      assert k[|s.base|+1..][|c|-|s.base|-1] == '/';
    }
  }

  /** Looking at this changed directory puts in something below it. */
  ghost predicate Surplus(s: Scan, c: string)
    requires s.Valid()
  {
    c in s.fs && s.fs[c].DirStat? && s.base <= c && !s.Skips(c) && s.Walked(c) != map[]
  }

  lemma SurplusFound(s: Scan, c: string)
    requires Shallow(s) && ChildEvent(s.base, c)
    ensures Surplus(s, c) <==> exists k :: k in Found(s, c) && k != c
  {
    if Surplus(s, c) {
      var k :| k in s.Walked(c);
      assert k in Found(s, c);
    }
    if k :| k in Found(s, c) && k != c {
      assert k in s.Walked(c);
    }
  }

  /** At one path: the patched state is right unless something below a changed directory was put in or left behind. */
  lemma RightAt(s: Scan, watched: FileState, after: FileState, changes: set<string>, c: string, k: string)
    requires Shallow(s) && c in changes && (forall x :: x in changes ==> ChildEvent(s.base, x)) && Covers(c, k)
    requires ChildEvent(s.base, c) && LookedAt(s, watched, after, c, k)
    ensures SameAt(after, Rescan(s), k) <==> k == c || (k !in Found(s, c) && !Orphan(watched, changes, k))
  {
    FoundAtChild(s, c, k);
    forall x | x in changes && Dirtied(watched, x, k) ensures x == c {
      OneChildCovers(s.base, c, x, k);
    }
    assert Covered(changes, k);
  }

  /** No changed directory has anything in it that is looked at, and no entry below one is left behind. */
  ghost predicate NothingBelow(s: Scan, watched: FileState, changes: set<string>)
    requires s.Valid()
  {
    (forall c :: c in changes ==> !Surplus(s, c)) && forall k :: !Orphan(watched, changes, k)
  }

  lemma UnderEach(base: string, order: seq<string>)
    requires forall c :: c in order ==> ChildEvent(base, c)
    ensures forall c :: c in order ==> Under(base, c)
  {
    forall c | c in order ensures Under(base, c) {
      ChildIsUnder(base, c);
    }
  }

  /** Main result: if the changes cover every difference, patching gives what a walk would give exactly in this case. */
  lemma ShallowPatchIsRescan(s: Scan, watched: FileState, order: seq<string>, changes: set<string>)
    requires Shallow(s) && Orders(order, changes) && forall c :: c in changes ==> ChildEvent(s.base, c)
    requires DifferOnlyAt(watched, Rescan(s), changes)
    ensures forall c :: c in order ==> Under(s.base, c)
    ensures AppliedAll(s, watched, order) == Rescan(s) <==> NothingBelow(s, watched, changes)
  {
    UnderEach(s.base, order);
    if NothingBelow(s, watched, changes) {
      forall k ensures SameAt(AppliedAll(s, watched, order), Rescan(s), k) {
        PatchedRight(s, watched, order, changes, k);
      }
      SameEverywhere(AppliedAll(s, watched, order), Rescan(s));
    } else {
      var k := PatchedWrong(s, watched, order, changes);
    }
  }

  lemma PatchedRight(s: Scan, watched: FileState, order: seq<string>, changes: set<string>, k: string)
    requires Shallow(s) && Orders(order, changes) && forall c :: c in changes ==> ChildEvent(s.base, c)
    requires DifferOnlyAt(watched, Rescan(s), changes) && NothingBelow(s, watched, changes)
    ensures forall c :: c in order ==> Under(s.base, c)
    ensures SameAt(AppliedAll(s, watched, order), Rescan(s), k)
  {
    AllChanges(s, watched, order, k);
    if c :| c in order && Covers(c, k) {
      SurplusFound(s, c);
      RightAt(s, watched, AppliedAll(s, watched, order), changes, c, k);
    } else {
      assert !Covered(changes, k);
      assert SameAt(watched, Rescan(s), k);
    }
  }

  /** A path below a change at which something is put in or left behind. */
  lemma SomethingBelow(s: Scan, watched: FileState, changes: set<string>) returns (c: string, k: string)
    requires Shallow(s) && (forall c :: c in changes ==> ChildEvent(s.base, c)) && !NothingBelow(s, watched, changes)
    ensures c in changes && Covers(c, k) && k != c && s.base <= c && (k in Found(s, c) || Orphan(watched, changes, k))
  {
    if x :| x in changes && Surplus(s, x) {
      SurplusFound(s, x);
      c := x;
      k :| k in Found(s, c) && k != c;
      FoundIsCovered(s, c, k);
    } else {
      k :| Orphan(watched, changes, k);
      c :| c in changes && Covers(c, k);
      assert !Dirtied(watched, c, k);
    }
  }

  lemma PatchedWrong(s: Scan, watched: FileState, order: seq<string>, changes: set<string>) returns (k: string)
    requires Shallow(s) && Orders(order, changes) && forall c :: c in changes ==> ChildEvent(s.base, c)
    requires !NothingBelow(s, watched, changes)
    ensures forall c :: c in order ==> Under(s.base, c)
    ensures !SameAt(AppliedAll(s, watched, order), Rescan(s), k)
  {
    var c;
    c, k := SomethingBelow(s, watched, changes);
    AllChanges(s, watched, order, k);
    RightAt(s, watched, AppliedAll(s, watched, order), changes, c, k);
  }

  /** For example: after a walk, an event on a directory puts in the file in it, which no walk records. */
  lemma ChildrenAreAdded(base: string, d: string, f: string, stat: Stat)
    requires DirectoryWithFile(base, d, f) && stat.FileStat?
    ensures var s := Scan(map[d := DirStat, f := stat], base, None, true);
            && Shallow(s) && DifferOnlyAt(Rescan(s), Rescan(s), {d}) && Under(base, d)
            && f in AppliedAll(s, Rescan(s), [d]) && f !in Rescan(s)
  {
    var s := Scan(map[d := DirStat, f := stat], base, None, true);
    SmallTree(base, d, f, stat);
    assert s.Recorded(d, f);
    AllChanges(s, Rescan(s), [d], f);
    FoundAtChild(s, d, f);
  }
}
