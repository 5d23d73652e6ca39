/** Where skipping ignored directories is not sound: exactly when, for a single excluding line, and for two lines in full. */
module PruningLimits {
  import opened Paths
  import opened IgnoreParser
  import opened IgnorePruning
  import opened MatchedDirectories
  import opened NegatedPaths
  import opened RegexMatching
  import opened Wrappers

  // ---------------------------------------------------------------------------------------------
  // A single excluding line
  // ---------------------------------------------------------------------------------------------

  /** Everything below an ignored directory is ignored. */
  ghost predicate PrunesSafely(matches: (string, bool) -> bool) {
    forall d, f, isDir :: NamesPath(d) && NamesPath(f) && Above(d, f) && matches(d, true) ==> matches(f, isDir)
  }

  /** A path is ignored if the regular expression matches it, a directory's path with a slash after it. */
  ghost predicate DecidedBy(matches: (string, bool) -> bool, ts: seq<Tok>) {
    forall r, isDir :: NamesPath(r) ==> (matches(r, isDir) <==> RegexMatches(ts, r + if isDir then "/" else ""))
  }

  lemma LostBelow(matches: (string, bool) -> bool, ts: seq<Tok>, d0: string) returns (d: string, f: string)
    requires Ended(ts) && DecidedBy(matches, ts) && !KeepsSubtree(ts) && NamesPath(d0) && matches(d0, true)
    ensures NamesPath(d) && NamesPath(f) && Above(d, f) && matches(d, true) && !matches(f, false)
  {
    assert DirectoryPath(d0 + "/");
    var d', x := SubtreeLost(ts, d0 + "/");
    d, f := d'[..|d'|-1], d' + x;
    assert d' == d + "/" && f[..|d|] == d && f + "" == f;
  }

  lemma KeptBelow(matches: (string, bool) -> bool, ts: seq<Tok>, d: string, f: string, isDir: bool)
    requires Ended(ts) && DecidedBy(matches, ts) && KeepsSubtree(ts)
    requires NamesPath(d) && NamesPath(f) && Above(d, f) && matches(d, true)
    ensures matches(f, isDir)
  {
    var d', f' := d + "/", f + if isDir then "/" else "";
    var x := f'[|d'|..];
    assert f' == d' + x && x[0] == f[|d|+1];
    ExcludeExtends(ts, d', x);
  }

  lemma NoDirectoryIgnored(matches: (string, bool) -> bool, ts: seq<Tok>)
    requires Compiled(ts) && DecidedBy(matches, ts)
    ensures MatchesNoDirectory(ts) <==> forall d :: NamesPath(d) ==> !matches(d, true)
  {
    if MatchesNoDirectory(ts) {
      forall d | NamesPath(d) ensures !matches(d, true) {
        if matches(d, true) {
          assert DirectoryPath(d + "/");
          NoDirectoryMatched(ts, d + "/");
        }
      }
    } else {
      var d' := SomeDirectoryMatched(ts);
      var d := d'[..|d'|-1];
      assert d' == d + "/" && NamesPath(d);
    }
  }

  lemma RegexPrunesSafely(matches: (string, bool) -> bool, ts: seq<Tok>)
    requires Compiled(ts) && Ended(ts) && DecidedBy(matches, ts)
    ensures PrunesSafely(matches) <==> KeepsSubtree(ts) || MatchesNoDirectory(ts)
  {
    NoDirectoryIgnored(matches, ts);
    if KeepsSubtree(ts) {
      forall d, f, isDir | NamesPath(d) && NamesPath(f) && Above(d, f) && matches(d, true) ensures matches(f, isDir) {
        KeptBelow(matches, ts, d, f, isDir);
      }
    } else if d0 :| NamesPath(d0) && matches(d0, true) {
      var d, f := LostBelow(matches, ts, d0);
    }
  }

  lemma LineIsCompiled(line: string)
    requires PatternFromLine(line).Some?
    ensures Compiled(PatternFromLine(line).value.regex)
  {
  }

  lemma {:induction false} TrimmedStart(a: string, s: string, c: char)
    requires a <= s && TrimLeft(a, c) != ""
    ensures TrimLeft(a, c) <= TrimLeft(s, c) && TrimLeft(a, c)[0] != c
  {
    assert a[0] == s[0];
    if a[0] == c {
      TrimmedStart(a[1..], s[1..], c);
    }
  }

  lemma {:induction false} TrimRightKeepsStart(s: string, c: char)
    requires s != "" && s[0] != c
    ensures TrimRight(s, c) != "" && TrimRight(s, c)[0] == s[0]
  {
    if s[|s|-1] == c {
      TrimRightKeepsStart(s[..|s|-1], c);
    }
  }

  /** The two readings of a line agree on whether it excludes. */
  lemma ExcludingIsPlain(line: string)
    ensures PatternFromLine(line).Some? && !PatternFromLine(line).value.negate ==> Classify(line).Plain?
  {
    if PatternFromLine(line).Some? && !PatternFromLine(line).value.negate {
      var l0 := TrimRight(line, '\r');
      var left := TrimLeft(l0, ' ');
      assert left == "" ==> TrimRight(left, ' ') == "";
      TrimmedStart(l0, line, ' ');
      TrimRightKeepsStart(left, ' ');
      assert left[0] == TrimLeft(line, ' ')[0];
      TrimRightKeepsStart(TrimLeft(line, ' '), ' ');
    }
  }

  lemma PatternsOfOne(line: string, p: Pattern)
    requires PatternFromLine(line) == Some(p)
    ensures Patterns([line]) == [p]
  {
    assert [line][..0] == [];
  }

  lemma NegatesOfOne(line: string)
    requires Classify(line).Plain?
    ensures AbsoluteNegates([line]) == []
  {
    assert [line][..0] == [];
  }

  lemma OnePatternDecides(ps: seq<Pattern>, p: Pattern, f: string)
    requires ps == [p] && !p.negate
    ensures MatchesPath(ps, f) <==> RegexMatches(p.regex, f)
  {
    assert ps[..0] == [];
  }

  lemma OneLineDecides(parser: Parser, p: Pattern)
    requires parser.patterns == [p] && !p.negate && parser.absoluteNegatePatterns == []
    ensures DecidedBy(parser.Matches, p.regex)
  {
    forall r, isDir | NamesPath(r)
      ensures parser.Matches(r, isDir) <==> RegexMatches(p.regex, r + if isDir then "/" else "")
    {
      NormaliseRelative(r, isDir);
      OnePatternDecides(parser.patterns, p, r + if isDir then "/" else "");
    }
  }

  /** Main result: for the parser of one excluding line, skipping ignored directories is sound if and only if the tokens of
      the compiled line keep subtrees together or cannot match a directory anyway. */
  lemma OneLinePrunesSafely(line: string)
    ensures PatternFromLine(line).Some? && !PatternFromLine(line).value.negate ==>
              var ts := PatternFromLine(line).value.regex;
              PrunesSafely(ParserOf([line]).Matches) <==> KeepsSubtree(ts) || MatchesNoDirectory(ts)
  {
    if PatternFromLine(line).Some? && !PatternFromLine(line).value.negate {
      var parser, p := ParserOf([line]), PatternFromLine(line).value;
      ExcludingIsPlain(line);
      PatternsOfOne(line, p);
      NegatesOfOne(line);
      OneLineDecides(parser, p);
      LineIsCompiled(line);
      RegexPrunesSafely(parser.Matches, p.regex);
    }
  }

  // ---------------------------------------------------------------------------------------------
  // A negating line after an excluding one
  // ---------------------------------------------------------------------------------------------

  lemma PatternsStep(lines: seq<string>, line: string, p: Pattern)
    requires PatternFromLine(line) == Some(p)
    ensures Patterns(lines + [line]) == Patterns(lines) + [p]
  {
    assert (lines + [line])[..|lines|] == lines;
  }

  lemma NegatesStep(lines: seq<string>, line: string, n: string)
    requires Classify(line) == Anchored(n)
    ensures AbsoluteNegates(lines + [line]) == AbsoluteNegates(lines) + [n]
  {
    assert (lines + [line])[..|lines|] == lines;
  }

  lemma PatternsOfTwo(first: string, second: string, p: Pattern, q: Pattern)
    requires PatternFromLine(first) == Some(p) && PatternFromLine(second) == Some(q)
    ensures Patterns([first] + [second]) == [p, q]
  {
    PatternsOfOne(first, p);
    PatternsStep([first], second, q);
  }

  lemma NegatesOfTwo(first: string, second: string, n: string)
    requires Classify(first).Plain? && Classify(second) == Anchored(n)
    ensures AbsoluteNegates([first] + [second]) == [n]
  {
    NegatesOfOne(first);
    NegatesStep([first], second, n);
  }

  lemma TwoPatterns(ps: seq<Pattern>, p: Pattern, q: Pattern, f: string)
    requires ps == [p, q] && !p.negate && q.negate
    ensures MatchesPath(ps, f) <==> RegexMatches(p.regex, f) && !RegexMatches(q.regex, f)
  {
    assert ps[..1] == [p];
    OnePatternDecides([p], p, f);
  }

  /** What the parser of an excluding and a negating line ignores. */
  lemma TwoLinesDecide(parser: Parser, p: Pattern, q: Pattern, n: string, r: string, isDir: bool)
    requires parser.patterns == [p, q] && parser.absoluteNegatePatterns == [n] && !p.negate && q.negate && NamesPath(r)
    ensures var r' := r + if isDir then "/" else "";
            parser.Matches(r, isDir) <==> RegexMatches(p.regex, r') && !RegexMatches(q.regex, r') && !(isDir && r' <= n)
  {
    NormaliseRelative(r, isDir);
    TwoPatterns(parser.patterns, p, q, r + if isDir then "/" else "");
    assert n in parser.absoluteNegatePatterns;
  }

  /** Blanks at the end make no difference to which directories lead to a path. */
  lemma BlankEnd(d: string, p: string, e: string)
    requires EndsInSlash(d) && Blank(e)
    ensures d <= p + e ==> d <= p
  {
    assert forall i :: |p| <= i < |p + e| ==> (p + e)[i] == e[i-|p|];
    if d <= p + e {
      assert (p + e)[|d|-1] == '/';
      assert d == p[..|d|];
    }
  }

  /** The line that excludes everything. */
  lemma StarLine(line: string) returns (p: Pattern)
    requires line == ['*']
    ensures PatternFromLine(line) == Some(p) && !p.negate && KeepsSubtree(p.regex) && forall f :: RegexMatches(p.regex, f)
  {
    NotTrimmed(line, '\r');
    NotTrimmed(line, ' ');
    NoDoubleStarIn(line);
    PlainCompiled(line);
    p := Pattern(Anchor(PlainTokens(line)), false);
    StarTrimmed(line, p);
    assert line[1..] == "";
    StarRegex(p.regex);
  }

  lemma StarTrimmed(line: string, p: Pattern)
    requires line == ['*'] && p.regex == Anchor(Tokens(line)) && !p.negate
    ensures PatternFromTrimmed(line) == Some(p)
  {
    NoDotNoGlob(line);
    PlainPattern(line, Tokens(line));
  }

  lemma StarRegex(ts: seq<Tok>)
    requires ts == [AnyDirs, Star, Below]
    ensures KeepsSubtree(ts) && forall f :: RegexMatches(ts, f)
  {
    assert ts[1] == Star;
    AllOptional(ts);
    forall f ensures RegexMatches(ts, f) {
      AbsorbsName(ts, f);
    }
  }

  lemma NoDoubleStarIn(line: string)
    requires |line| == 1
    ensures !Contains(line, "**")
  {
    forall i | 0 <= i <= 1 ensures !("**" <= line[i..]) {
      assert |line[i..]| <= 1;
    }
  }

  /** A line that ignores directories together with what is in them. */
  predicate KeepingLine(line: string) {
    PatternFromLine(line).Some? && !PatternFromLine(line).value.negate && KeepsSubtree(PatternFromLine(line).value.regex)
  }

  /** Lines that keep subtrees together make skipping sound. */
  lemma LinesPruneSafely(lines: seq<string>)
    requires (forall line :: line in lines ==> SubtreeLine(line)) && !ParserOf(lines).requireFullScan
    ensures PrunesSafely(ParserOf(lines).Matches)
  {
    var parser := ParserOf(lines);
    forall d, f, isDir | NamesPath(d) && NamesPath(f) && Above(d, f) && parser.Matches(d, true) ensures parser.Matches(f, isDir) {
      IgnoredBelowIgnored(lines, parser, d, f, isDir);
    }
  }

  lemma SafeAfterAny(e: string, n: string)
    requires KeepingLine(e) && PatternFromLine(n).Some? && PatternFromLine(n).value.negate && Classify(n).Anchored?
    requires SafeNegate(NegatedPath(n))
    ensures PrunesSafely(ParserOf([e] + [n]).Matches)
  {
    ExcludingIsPlain(e);
    TwoLinesKeep(e, n);
    LinesPruneSafely([e] + [n]);
  }

  lemma TwoLinesKeep(e: string, n: string)
    requires SubtreeLine(e) && SubtreeLine(n) && !Classify(e).Unscoped? && !Classify(n).Unscoped?
    ensures (forall line :: line in [e] + [n] ==> SubtreeLine(line)) && !ParserOf([e] + [n]).requireFullScan
  {
    forall line | line in [e] + [n] ensures SubtreeLine(line) && !Classify(line).Unscoped? {
      OneOfTwo(e, n, line);
    }
  }

  lemma OneOfTwo(e: string, n: string, line: string)
    ensures line in [e] + [n] <==> line == e || line == n
  {
  }

  lemma LostDecides(parser: Parser, p: Pattern, q: Pattern, n: string, t: string, d: string, f: string, isDir: bool)
    requires parser.patterns == [p, q] && parser.absoluteNegatePatterns == [n] && !p.negate && q == Pattern(NegateRegex(t), true)
    requires Lost(t, d, f, isDir) && !(d + "/" <= n) && forall f :: RegexMatches(p.regex, f)
    ensures parser.Matches(d, true) && !parser.Matches(f, isDir)
  {
    TwoLinesDecide(parser, p, q, n, d, true);
    TwoLinesDecide(parser, p, q, n, f, isDir);
  }

  /** What is lost after the line that excludes everything. */
  lemma AfterStar(n: string, t: string, e: string, d: string, f: string, isDir: bool)
    requires PatternFromLine(n) == Some(Pattern(NegateRegex(t), true)) && Classify(n) == Anchored(t + e) && Blank(e)
    requires Lost(t, d, f, isDir)
    ensures KeepingLine(['*'])
    ensures var matches := ParserOf([['*']] + [n]).Matches; matches(d, true) && !matches(f, isDir)
  {
    var star := ['*'];
    var p := StarLine(star);
    ExcludingIsPlain(star);
    PatternsOfTwo(star, n, p, PatternFromLine(n).value);
    NegatesOfTwo(star, n, t + e);
    BlankEnd(d + "/", t, e);
    LostDecides(ParserOf([star] + [n]), p, PatternFromLine(n).value, t + e, t, d, f, isDir);
  }

  lemma LostAfterStar(n: string)
    requires PatternFromLine(n).Some? && PatternFromLine(n).value.negate && Classify(n).Anchored?
    requires !SafeNegate(NegatedPath(n))
    ensures KeepingLine(['*']) && !PrunesSafely(ParserOf([['*']] + [n]).Matches)
  {
    var t, e := NegateReadings(n);
    var d, f, isDir := UnsafeLoses(t);
    AfterStar(n, t, e, d, f, isDir);
  }

  /** Main result: a negating line that is anchored at the base may follow any excluding line that keeps subtrees together
      if and only if its path is safe. */
  lemma NegateLinePrunesSafely(n: string)
    ensures PatternFromLine(n).Some? && PatternFromLine(n).value.negate && Classify(n).Anchored? ==>
              ((forall e :: KeepingLine(e) ==> PrunesSafely(ParserOf([e] + [n]).Matches)) <==> SafeNegate(NegatedPath(n)))
  {
    if PatternFromLine(n).Some? && PatternFromLine(n).value.negate && Classify(n).Anchored? {
      if SafeNegate(NegatedPath(n)) {
        forall e | KeepingLine(e) ensures PrunesSafely(ParserOf([e] + [n]).Matches) {
          SafeAfterAny(e, n);
        }
      } else {
        LostAfterStar(n);
      }
    }
  }

  // ---------------------------------------------------------------------------------------------
  // Two inputs for which skipping an ignored directory changes the outcome
  // ---------------------------------------------------------------------------------------------

  /** A character without a meaning of its own. */
  predicate PlainChar(c: char) {
    c !in "/*\\ \r#!."
  }

  lemma ReplaceInNoMatch(ts: seq<Tok>, pat: seq<Tok>, tok: Tok, c: char)
    requires ts == [Lit(c), Between] && |pat| >= 2 && pat[0] != Lit(c)
    ensures ReplaceAll(ts, pat, tok) == ts
  {
    assert |pat| == 2 ==> ts[..2][0] != pat[0];
    assert |ts[1..]| < |pat|;
  }

  lemma TrailingAnyDirsTokens(line: string, c: char)
    requires line == [c, '/', '*', '*', '/'] && PlainChar(c)
    ensures Tokens(line) == [Lit(c), Between]
  {
    var ts, pat := Lits(line), Lits("/**/");
    assert ts[..4][0] == Lit(c) && pat[0] == Lit('/');
    assert ts[1..] == pat && ts[1..][..4] == pat && ts[1..][4..] == [];
    var r := [Lit(c), Between];
    assert ReplaceAll(ts, pat, Between) == r;
    ReplaceInNoMatch(r, Lits("**/"), AnyDirs, c);
    ReplaceInNoMatch(r, Lits("/**"), Below, c);
    ReplaceInNoMatch(r, Lits("\\*"), EscapedStar, c);
    assert Stars(r) == r;
  }

  lemma TrailingAnyDirsTrimmed(line: string, c: char, ts: seq<Tok>)
    requires line == [c, '/', '*', '*', '/'] && PlainChar(c) && Tokens(line) == ts
    ensures PatternFromTrimmed(line) == Some(Pattern(Anchor(ts), false))
  {
    NoDotNoGlob(line);
    PlainPattern(line, ts);
  }

  lemma NoDotNoGlob(line: string)
    requires '.' !in line
    ensures !FolderGlob(line)
  {
  }

  lemma PlainPattern(l: string, ts: seq<Tok>)
    requires l != "" && l[0] != '!' && l[0] != '#' && !FolderGlob(l) && Tokens(l) == ts
    ensures PatternFromTrimmed(l) == Some(Pattern(Anchor(ts), false))
  {
    assert !("#" <= l) && !("!" <= l);
  }

  lemma TrailingAnyDirsPattern(line: string, c: char) returns (p: Pattern)
    requires line == [c, '/', '*', '*', '/'] && PlainChar(c)
    ensures PatternFromLine(line) == Some(p) && !p.negate && p.regex == [AnyDirs, Lit(c), Between, Below]
  {
    var ts := [Lit(c), Between];
    NotTrimmed(line, '\r');
    NotTrimmed(line, ' ');
    TrailingAnyDirsTokens(line, c);
    TrailingAnyDirsTrimmed(line, c, ts);
    AnchoredName(c, ts);
    p := Pattern(Anchor(ts), false);
  }

  lemma AnchoredName(c: char, ts: seq<Tok>)
    requires ts == [Lit(c), Between] && c != '/'
    ensures Anchor(ts) == [AnyDirs, Lit(c), Between, Below]
  {
  }

  lemma NameThenDirectory(ts: seq<Tok>, c: char, d: string)
    requires ts == [AnyDirs, Lit(c), Between, Below] && d == ['/', c, '/']
    ensures RegexMatches(ts, d) && !KeepsSubtree(ts)
    ensures var n := Required(ts); n > 0 && !Absorbs(ts[n..]) && EndsWithSlash(ts[n-1])
  {
    NameMatchesDirectory(ts, c, d);
    assert ts[..3] == [AnyDirs, Lit(c), Between];
    LastIsRequired(ts[..3], Between);
    assert Required(ts) == 3 && ts[3..] == [Below];
  }

  lemma LastIsRequired(ts: seq<Tok>, t: Tok)
    requires ts != [] && ts[|ts|-1] == t && !Nullable(t)
    ensures Required(ts) == |ts|
  {
  }

  lemma NameMatchesDirectory(ts: seq<Tok>, c: char, d: string)
    requires ts == [AnyDirs, Lit(c), Between, Below] && d == ['/', c, '/']
    ensures RegexMatches(ts, d)
  {
    MatchesSingle(AnyDirs, ['/']);
    MatchesSingle(Lit(c), [c]);
    MatchesSingle(Between, ['/']);
    MatchesSingle(Below, []);
    ConcatMatches([AnyDirs], [Lit(c)], ['/'], [c]);
    ConcatMatches([Between], [Below], ['/'], []);
    ConcatMatches([AnyDirs] + [Lit(c)], [Between] + [Below], ['/'] + [c], ['/'] + []);
    assert ts == ([AnyDirs] + [Lit(c)]) + ([Between] + [Below]) && d == (['/'] + [c]) + (['/'] + []);
  }

  /** The line consisting of a name, a slash, two stars and a slash ignores the directory of that name, but not the files
      in it: skipping the directory loses them. */
  lemma TrailingAnyDirs(line: string, c: char, b: char, d: string, f: string)
    requires line == [c, '/', '*', '*', '/'] && PlainChar(c) && b != '/' && d == ['/', c] && f == ['/', c, '/', b]
    ensures var matches := ParserOf([line]).Matches; matches(d, true) && !matches(f, false) && !PrunesSafely(matches)
  {
    var p := TrailingAnyDirsPattern(line, c);
    var parser := ParserOf([line]);
    ExcludingIsPlain(line);
    PatternsOfOne(line, p);
    NegatesOfOne(line);
    OneLineDecides(parser, p);
    DirectoryLost(parser.Matches, p.regex, c, b, d, f);
  }

  lemma DirectoryLost(matches: (string, bool) -> bool, ts: seq<Tok>, c: char, b: char, d: string, f: string)
    requires ts == [AnyDirs, Lit(c), Between, Below] && DecidedBy(matches, ts)
    requires PlainChar(c) && b != '/' && d == ['/', c] && f == ['/', c, '/', b]
    ensures matches(d, true) && !matches(f, false) && !PrunesSafely(matches)
  {
    NameThenDirectory(ts, c, d + "/");
    assert NamesPath(d) && NamesPath(f) && Above(d, f) && DirectoryPath(d + "/");
    SlashBlocks(ts, d + "/", b);
    assert f + "" == (d + "/") + [b];
  }

  lemma StarAbsent(t: string, sub: string)
    requires '*' !in t && sub != "" && sub[0] == '*'
    ensures !Contains(t, sub)
  {
    forall i | 0 <= i <= |t| ensures !(sub <= t[i..]) {
      assert i < |t| ==> t[i] in t && t[i..][0] == t[i];
    }
  }

  lemma NotTrimmed(s: string, c: char)
    requires s != "" && s[0] != c && s[|s|-1] != c
    ensures TrimRight(s, c) == s && Trim(s, c) == s
  {
  }

  /** A plain name. */
  predicate Name(a: string) {
    a != "" && a != "." && a != ".." && '/' !in a && '*' !in a && a[|a|-1] != ' ' && a[|a|-1] != '\r'
  }

  lemma DoubleSlashDir(f: string, t: string, a: string, b: string)
    requires Name(a) && Name(b) && f == ['/'] + a + ['/'] + b && t == ['/'] + f
    ensures Dir(t) == "/" + a
  {
    var segs := ["", "", a];
    DoubleSlashParts(f, t, a, b);
    assert Split(t)[..3] == segs;
    TwoEmptySegments(segs, a);
  }

  lemma DoubleSlashParts(f: string, t: string, a: string, b: string)
    requires Name(a) && Name(b) && f == ['/'] + a + ['/'] + b && t == ['/'] + f
    ensures Split(t) == ["", "", a] + [b]
  {
    var rest := a + ['/'] + b;
    assert f == [] + ['/'] + rest && t == [] + ['/'] + f;
    SplitAtSlash([], f);
    SplitAtSlash([], rest);
    SplitAtSlash(a, b);
    SplitPlain(a);
    SplitPlain(b);
  }

  lemma TwoEmptySegments(segs: seq<string>, a: string)
    requires segs == ["", "", a] && Name(a)
    ensures CleanSegments(segs) == [a]
  {
    assert segs[..2] == ["", ""] && segs[..2][..1] == [""] && [""][..0] == [];
    assert CleanSegments([""]) == CleanSegments([]) == [];
    assert CleanSegments(segs[..2]) == [];
  }

  lemma DoubleSlashClassified(line: string, f: string, t: string, a: string, b: string)
    requires Name(a) && Name(b) && f == ['/'] + a + ['/'] + b && t == ['/'] + f && line == ['!'] + t
    ensures Classify(line) == Anchored(t)
  {
    assert line[|line|-1] == b[|b|-1] && line[1..] == t;
    NotTrimmed(line, ' ');
    StarAbsent(t, "**");
    DoubleSlashDir(f, t, a, b);
    StarAbsent("/" + a, "*");
  }

  lemma DoubleSlashTrimmed(l: string, t: string)
    requires |t| > 1 && t[0] == '/' && '*' !in t && l == ['!'] + t
    ensures PatternFromTrimmed(l) == Some(Pattern(Anchor(Tokens(t)), true))
  {
    assert l[1..] == t;
    NoFolderGlob(t);
  }

  lemma NoFolderGlob(t: string)
    requires '*' !in t
    ensures !FolderGlob(t)
  {
    assert forall j :: 0 <= j < |t| ==> t[j] in t;
  }

  lemma DoubleSlashCompiled(line: string, t: string)
    requires |t| > 1 && t[0] == '/' && '*' !in t && t[|t|-1] != ' ' && t[|t|-1] != '\r' && line == ['!'] + t
    ensures PatternFromLine(line) == Some(Pattern(NegateRegex(t), true))
  {
    assert line[|line|-1] == t[|t|-1];
    NotTrimmed(line, '\r');
    NotTrimmed(line, ' ');
    DoubleSlashTrimmed(line, t);
    StarAbsent(t, "**");
    PlainCompiled(t);
  }

  lemma PathOfNames(a: string, b: string, d: string, f: string, t: string)
    requires Name(a) && Name(b) && d == ['/'] + a && f == ['/'] + a + ['/'] + b && t == ['/'] + f
    ensures '*' !in t && t[|t|-1] == b[|b|-1] && '/' !in d[1..] && t[1..] == f && !(d + "/" <= t)
  {
    assert a[0] in a && d[1..] == a;
    assert (d + "/")[1] == a[0] && t[1] == '/';
  }

  lemma NameOnTheWay(a: string, d: string)
    requires Name(a) && d == ['/'] + a
    ensures NamesPath(d)
  {
    assert forall i :: 0 <= i < |a| ==> d[i+1] == a[i] && a[i] in a;
  }

  lemma NamesOnTheWay(a: string, b: string, d: string, f: string)
    requires Name(a) && Name(b) && d == ['/'] + a && f == ['/'] + a + ['/'] + b
    ensures NamesPath(d) && NamesPath(f) && Above(d, f)
  {
    NameOnTheWay(a, d);
    NameOnTheWay(b, ['/'] + b);
    assert f == d + (['/'] + b);
    JoinedPaths(d, ['/'] + b, f);
  }

  lemma JoinedPaths(d: string, e: string, f: string)
    requires NamesPath(d) && NamesPath(e) && f == d + e
    ensures NamesPath(f) && Above(d, f)
  {
    assert f[..|d|] == d && f[|d|] == e[0] && f[|f|-1] == e[|e|-1];
    forall i | 0 < i < |f| && f[i] == '/' ensures f[i-1] != '/' {
      if i < |d| {
        assert f[i] == d[i] && f[i-1] == d[i-1];
      } else if i > |d| {
        assert f[i] == e[i-|d|] && f[i-1] == e[i-|d|-1];
      } else {
        assert f[i-1] == d[|d|-1];
      }
    }
  }

  lemma NegatedFileIsMatched(t: string, f: string)
    requires t == ['/'] + f && f != "" && '*' !in t
    ensures RegexMatches(NegateRegex(t), f)
  {
    var tail := NegateShape(t);
    assert t[1..] == f;
    LiteralMatch(f, f);
    TailTakesNothing(tail);
    JoinParts(PlainTokens(f), tail, "", f, "");
    assert "" + f + "" == f;
  }

  /** After a line that excludes everything, a negating line that starts with two slashes un-ignores a file, but its
      directory is not kept for it. */
  lemma DoubleSlashNegate(a: string, b: string, d: string, f: string, t: string, line: string)
    requires Name(a) && Name(b) && d == ['/'] + a && f == ['/'] + a + ['/'] + b
    requires t == ['/'] + f && line == ['!'] + t
    ensures var matches := ParserOf([['*']] + [line]).Matches; matches(d, true) && !matches(f, false)
  {
    DoubleSlashLine(a, b, d, f, t, line);
    FileIsLost(a, b, d, f, t);
    AfterStar(line, t, "", d, f, false);
  }

  lemma DoubleSlashLine(a: string, b: string, d: string, f: string, t: string, line: string)
    requires Name(a) && Name(b) && d == ['/'] + a && f == ['/'] + a + ['/'] + b
    requires t == ['/'] + f && line == ['!'] + t
    ensures PatternFromLine(line) == Some(Pattern(NegateRegex(t), true)) && Classify(line) == Anchored(t + "")
  {
    PathOfNames(a, b, d, f, t);
    DoubleSlashCompiled(line, t);
    DoubleSlashClassified(line, f, t, a, b);
    NothingAdded(t);
  }

  lemma NothingAdded(t: string)
    ensures t + "" == t
  {
  }

  lemma FileIsLost(a: string, b: string, d: string, f: string, t: string)
    requires Name(a) && Name(b) && d == ['/'] + a && f == ['/'] + a + ['/'] + b && t == ['/'] + f
    ensures Lost(t, d, f, false)
  {
    PathOfNames(a, b, d, f, t);
    NamesOnTheWay(a, b, d, f);
    NameIsNotMatchedOf(a, b, d, f, t);
    NegatedFileIsMatched(t, f);
    assert f + "" == f;
  }

  lemma NameIsNotMatchedOf(a: string, b: string, d: string, f: string, t: string)
    requires Name(a) && Name(b) && d == ['/'] + a && f == ['/'] + a + ['/'] + b && t == ['/'] + f
    requires NamesPath(d) && '*' !in t && '/' !in d[1..] && t[1..] == f
    ensures !RegexMatches(NegateRegex(t), d + "/")
  {
    StarAbsent(t, "**");
    assert "//" <= t by { assert f[0] == '/'; }
    assert b != "*" by { assert b[0] in b; }
    NameIsNotMatched(t, a, b, d);
  }
}
