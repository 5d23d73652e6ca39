/** From exclude lines to what the client holds: compiled parsers as the walk's matchers, and as configurations of runs. */
module ExcludeLines {
  import opened ChangeStreaming
  import opened IgnoreParser
  import opened IgnorePruning
  import opened Mirroring
  import opened Paths
  import opened Walk
  import opened Wrappers

  // ---------------------------------------------------------------------------------------------
  // Compiled parsers as matchers
  // ---------------------------------------------------------------------------------------------

  function MatcherOf(p: Parser): Matcher {
    Matcher((relative, isDir) => p.Matches(relative, isDir), p.requireFullScan)
  }

  /** No name of an existing path is empty. */
  lemma WellFormedIsRelative(fs: FileSystem, base: string, k: string)
    requires WellFormed(fs, base) && k in fs
    ensures NamesPath(k[|base|..])
  {
    var r := k[|base|..];
    forall i | 0 < i < |r| && r[i] == '/' ensures r[i-1] != '/' {
      var p := k[..|base|+i];
      assert p[..|base|] == base && p[|p|-1] == r[i-1];
      assert Above(base, p) && Above(p, k);
    }
  }

  lemma RelativeBelow(fs: FileSystem, base: string, d: string, k: string)
    requires WellFormed(fs, base) && d in fs && k in fs && Above(d, k)
    ensures var rd, rk := d[|base|..], k[|base|..];
            NamesPath(rd) && NamesPath(rk) && Above(rd, rk)
  {
    WellFormedIsRelative(fs, base, d);
    WellFormedIsRelative(fs, base, k);
    assert d[|base|..] == k[|base|..][..|d|-|base|];
  }

  lemma SkipsBelow(fs: FileSystem, base: string, lines: seq<string>, parser: Parser, d: string, k: string, isDir: bool)
    requires WellFormed(fs, base) && d in fs && k in fs && Above(d, k)
    requires parser == ParserOf(lines) && !parser.requireFullScan
    requires forall line :: line in lines ==> SubtreeLine(line)
    requires parser.Matches(d[|base|..], true)
    ensures parser.Matches(k[|base|..], isDir)
  {
    RelativeBelow(fs, base, d, k);
    var rd, rk := d[|base|..], k[|base|..];
    IgnoredBelowIgnored(lines, parser, rd, rk, isDir);
  }

  /** Every parser compiled from such lines either walks through everything or skips subtrees soundly. */
  lemma CompiledSkipsSubtrees(s: Scan, lines: seq<string>, parser: Parser)
    requires s.Valid() && s.matcher == Some(MatcherOf(parser))
    requires parser == ParserOf(lines)
    requires forall line :: line in lines ==> SubtreeLine(line)
    ensures SkipsSubtrees(s)
  {
    if !parser.requireFullScan {
      forall d, k | d in s.fs && k in s.fs && Above(d, k) && s.Skips(d) ensures s.Skips(k) {
        assert s.fs[d].DirStat?;
        SkipsBelow(s.fs, s.base, lines, parser, d, k, s.fs[k].DirStat?);
      }
    }
  }

  // ---------------------------------------------------------------------------------------------
  // From exclude lines to what the client holds
  // ---------------------------------------------------------------------------------------------

  /** The configuration of a server that was started with these exclude lines. */
  function ConfigOf(base: string, lines: seq<string>): Config {
    Config(base, if lines == [] then None else Some(MatcherOf(ParserOf(lines))))
  }

  /** Lines that keep subtrees together give a configuration for which patching is meant. */
  lemma CompiledConfigIsValid(base: string, lines: seq<string>)
    requires forall line :: line in lines ==> SubtreeLine(line)
    requires !ParserOf(lines).requireFullScan
    ensures ConfigOf(base, lines).Valid()
  {
    var c := ConfigOf(base, lines);
    forall fs | WellFormed(fs, base) ensures SkipsSubtrees(c.At(fs)) {
      if lines != [] {
        CompiledSkipsSubtrees(c.At(fs), lines, ParserOf(lines));
      }
    }
  }

  /** Main result, end to end: the client of a server started with such lines holds exactly what is not excluded. */
  lemma ClientHoldsNonExcluded(base: string, lines: seq<string>, run: seq<System>, i: nat)
    requires forall line :: line in lines ==> SubtreeLine(line)
    requires !ParserOf(lines).requireFullScan
    requires Run(ConfigOf(base, lines), AtAnyTime, run) && i + 1 < |run| && Guarded(ConfigOf(base, lines), run, i)
    requires Finish(ConfigOf(base, lines), run[i], run[i+1]) && run[i].asked.Some?
    ensures WellFormed(run[i].asked.value, base)
    ensures Mirrors(run[i+1].client, base, Filtered(ConfigOf(base, lines).At(run[i].asked.value)))
  {
    var c := ConfigOf(base, lines);
    CompiledConfigIsValid(base, lines);
    ClientMirrorsTree(c, run, i);
    SkippingEqualsFiltering(c.At(run[i].asked.value));
  }

  /** Excluded by the lines, or not: as a file or directory of the tree. */
  ghost predicate Kept(base: string, lines: seq<string>, fs: FileSystem, k: string) {
    k in fs && base <= k && (lines == [] || !ParserOf(lines).Matches(k[|base|..], fs[k].DirStat?))
  }

  /** What a client holds that was told of everything in the tree that is not excluded. */
  ghost predicate Holds(client: ClientState, base: string, lines: seq<string>, fs: FileSystem, r: string) {
    var k := base + r;
    && (r in client <==> Kept(base, lines, fs, k))
    && (r in client ==>
          match fs[k]
          case DirStat => client[r] == Meta(true, 0, 0, 0)
          case FileStat(size, unix, nano, _) => client[r] == Meta(false, size, unix, nano))
  }

  lemma MirrorHolds(client: ClientState, base: string, lines: seq<string>, fs: FileSystem, r: string)
    requires WellFormed(fs, base) && Mirrors(client, base, Filtered(ConfigOf(base, lines).At(fs)))
    ensures Holds(client, base, lines, fs, r)
  {
    var m := Filtered(ConfigOf(base, lines).At(fs));
    assert MirrorsAt(client, base, m, r);
    assert (base + r)[|base|..] == r;
  }

  /** Main result, in terms of the lines, the tree and what the client holds alone: for each file that is not excluded its
      size and times, for each such directory that it is one, and nothing else. */
  lemma ClientHoldsFiles(base: string, lines: seq<string>, run: seq<System>, i: nat, r: string)
    requires forall line :: line in lines ==> SubtreeLine(line)
    requires !ParserOf(lines).requireFullScan
    requires Run(ConfigOf(base, lines), AtAnyTime, run) && i + 1 < |run| && Guarded(ConfigOf(base, lines), run, i)
    requires Finish(ConfigOf(base, lines), run[i], run[i+1]) && run[i].asked.Some?
    ensures Holds(run[i+1].client, base, lines, run[i].asked.value, r)
  {
    ClientHoldsNonExcluded(base, lines, run, i);
    MirrorHolds(run[i+1].client, base, lines, run[i].asked.value, r);
  }
}
