/** What the parser of one exclude line ignores, in terms of the text of the line and of the path alone. */
module ExcludedPaths {
  import opened IgnoreParser
  import opened NegatedPaths
  import opened Paths
  import opened PruningLimits
  import opened RegexMatching
  import opened Wrappers

  /** Neither blanks nor carriage returns are cut off, and the line is neither a comment nor negating. */
  predicate Unadorned(line: string) {
    && line != "" && line[0] !in "!# \r" && line[|line|-1] !in " \r"
  }

  /** The path as it is matched. */
  function AsMatched(r: string, isDir: bool): string {
    r + if isDir then "/" else ""
  }

  lemma LineDecides(line: string, ts: seq<Tok>)
    requires PatternFromLine(line) == Some(Pattern(ts, false))
    ensures DecidedBy(ParserOf([line]).Matches, ts)
  {
    ExcludingIsPlain(line);
    PatternsOfOne(line, Pattern(ts, false));
    NegatesOfOne(line);
    OneLineDecides(ParserOf([line]), Pattern(ts, false));
  }

  lemma Untrimmed(line: string)
    requires Unadorned(line)
    ensures PatternFromLine(line) == PatternFromTrimmed(line)
  {
    NotTrimmed(line, '\r');
    NotTrimmed(line, ' ');
    assert !("#" <= line);
  }

  lemma CompiledTo(line: string, ts: seq<Tok>, regex: seq<Tok>)
    requires Unadorned(line) && !FolderGlob(line) && Tokens(line) == ts && Anchor(ts) == regex
    ensures PatternFromLine(line) == Some(Pattern(regex, false))
  {
    Untrimmed(line);
    PlainPattern(line, ts);
  }

  // ---------------------------------------------------------------------------------------------
  // Matching around a fixed text
  // ---------------------------------------------------------------------------------------------

  /** What follows a covered path in the path as it is matched. */
  predicate Rest(w: string) {
    w == "" || w[0] == '/'
  }

  /** A path is followed by such a rest exactly if it covers. */
  lemma CoversByRest(p: string, r: string, isDir: bool)
    requires NamesPath(r) && p != "" && p[|p|-1] != '/'
    ensures Covers(p, r) <==> p <= AsMatched(r, isDir) && Rest(AsMatched(r, isDir)[|p|..])
  {
    var f := AsMatched(r, isDir);
    if Covers(p, r) {
      assert f[..|p|] == r[..|p|] == p;
    }
    if p <= f && Rest(f[|p|..]) {
      assert p == f[..|p|];
      assert |p| <= |r|;
      assert r[..|p|] == f[..|p|];
    }
  }

  lemma {:induction false} NoStarIsLiteral(t: string)
    requires '*' !in t
    ensures PlainTokens(t) == Lits(t) && !Contains(t, "**")
  {
    StarAbsent(t, "**");
    if t != "" {
      assert t[0] in t && (|t| > 1 ==> t[1] in t);
      NoStarIsLiteral(t[1..]);
    }
  }

  /** Where a text may stand in a path: at its beginning after a slash, or at the end of any path, after a slash. */
  predicate Placed(first: Tok, t: string, p: string) {
    if first == OptSlash then p == "/" + t else EndsIn(p, t)
  }

  /** The path ends in this text, after a slash. */
  predicate EndsIn(p: string, t: string) {
    |p| > |t| && p[|p|-|t|-1] == '/' && p[|p|-|t|..] == t
  }

  /** A text that neither begins nor ends with a slash. */
  predicate Inner(t: string) {
    t != "" && t[0] != '/' && t[|t|-1] != '/'
  }

  predicate Cuts(first: Tok, f: string, u: string, t: string, w: string) {
    TokMatches(first, u) && Rest(w) && f == u + t + w
  }

  lemma CutMatches(first: Tok, mid: seq<Tok>, f: string) returns (u: string, t: string, w: string)
    requires RegexMatches([first] + mid + [Below], f)
    ensures Cuts(first, f, u, t, w) && RegexMatches(mid, t)
  {
    u, t, w := CutInThree(first, mid, Below, f);
  }

  lemma CutInThree(first: Tok, mid: seq<Tok>, last: Tok, f: string) returns (u: string, t: string, w: string)
    requires RegexMatches([first] + mid + [last], f)
    ensures f == u + t + w && TokMatches(first, u) && RegexMatches(mid, t) && TokMatches(last, w)
  {
    var k := MatchesConcat([first] + mid, [last], f);
    var l := MatchesConcat([first], mid, f[..k]);
    u, t, w := f[..k][..l], f[..k][l..], f[k..];
    MatchesSingle(first, u);
    MatchesSingle(last, w);
    assert f == f[..k] + w && f[..k] == u + t;
  }

  lemma JoinMatches(first: Tok, mid: seq<Tok>, f: string, u: string, t: string, w: string)
    requires Cuts(first, f, u, t, w) && RegexMatches(mid, t)
    ensures RegexMatches([first] + mid + [Below], f)
  {
    MatchesSingle(first, u);
    MatchesSingle(Below, w);
    ConcatMatches([first], mid, u, t);
    ConcatMatches([first] + mid, [Below], u + t, w);
  }

  lemma FirstOf(u: string, t: string, w: string)
    requires t != ""
    ensures (u + t + w)[0] == if u == "" then t[0] else u[0]
  {
  }

  lemma CutIsPlaced(first: Tok, r: string, isDir: bool, u: string, t: string, w: string)
    requires (first == OptSlash || first == AnyDirs) && Inner(t) && NamesPath(r) && Cuts(first, AsMatched(r, isDir), u, t, w)
    ensures Placed(first, t, u + t) && Covers(u + t, r)
  {
    var p := u + t;
    FirstOf(u, t, w);
    assert AsMatched(r, isDir)[|p|..] == w;
    CoversByRest(p, r, isDir);
  }

  lemma PlacedIsCut(first: Tok, r: string, isDir: bool, t: string, p: string) returns (u: string, w: string)
    requires (first == OptSlash || first == AnyDirs) && Inner(t) && NamesPath(r) && Placed(first, t, p) && Covers(p, r)
    ensures Cuts(first, AsMatched(r, isDir), u, t, w)
  {
    assert p[|p|-1] == t[|t|-1];
    CoversByRest(p, r, isDir);
    u, w := p[..|p|-|t|], AsMatched(r, isDir)[|p|..];
    assert p == u + t;
  }

  /** What a compiled line ignores: whatever is covered by a path in which one of the texts that the middle part matches is
      placed as the first token says. */
  lemma LineMatches(line: string, first: Tok, mid: seq<Tok>, r: string, isDir: bool)
    requires PatternFromLine(line) == Some(Pattern([first] + mid + [Below], false)) && NamesPath(r)
    requires (first == OptSlash || first == AnyDirs) && forall t :: RegexMatches(mid, t) ==> Inner(t)
    ensures ParserOf([line]).Matches(r, isDir) <==>
              exists p, t :: RegexMatches(mid, t) && Placed(first, t, p) && Covers(p, r)
  {
    LineDecides(line, [first] + mid + [Below]);
    if RegexMatches([first] + mid + [Below], AsMatched(r, isDir)) {
      var p, t := MatchedIsPlaced(first, mid, r, isDir);
    }
    if p, t :| RegexMatches(mid, t) && Placed(first, t, p) && Covers(p, r) {
      var u, w := PlacedIsCut(first, r, isDir, t, p);
      JoinMatches(first, mid, AsMatched(r, isDir), u, t, w);
    }
  }

  lemma MatchedIsPlaced(first: Tok, mid: seq<Tok>, r: string, isDir: bool) returns (p: string, t: string)
    requires NamesPath(r) && RegexMatches([first] + mid + [Below], AsMatched(r, isDir))
    requires (first == OptSlash || first == AnyDirs) && forall t :: RegexMatches(mid, t) ==> Inner(t)
    ensures RegexMatches(mid, t) && Placed(first, t, p) && Covers(p, r)
  {
    var u, w;
    u, t, w := CutMatches(first, mid, AsMatched(r, isDir));
    p := u + t;
    CutIsPlaced(first, r, isDir, u, t, w);
  }

  /** The same for a middle part that matches one text only. */
  lemma TextLineMatches(line: string, first: Tok, t: string, r: string, isDir: bool)
    requires PatternFromLine(line) == Some(Pattern([first] + Lits(t) + [Below], false)) && NamesPath(r)
    requires (first == OptSlash || first == AnyDirs) && Inner(t)
    ensures ParserOf([line]).Matches(r, isDir) <==> exists p :: Placed(first, t, p) && Covers(p, r)
  {
    forall x ensures RegexMatches(Lits(t), x) <==> x == t {
      LitsMatchThemselves(t, x);
    }
    LineMatches(line, first, Lits(t), r, isDir);
  }

  // ---------------------------------------------------------------------------------------------
  // A path from the base, without wildcards
  // ---------------------------------------------------------------------------------------------

  lemma RootedCompiled(line: string)
    requires NamesPath(line) && '*' !in line && Unadorned(line)
    ensures PatternFromLine(line) == Some(Pattern([OptSlash] + Lits(line[1..]) + [Below], false))
  {
    NoStarIsLiteral(line);
    PlainCompiled(line);
    NoStarNoGlob(line);
    AnchorRooted(line);
    CompiledTo(line, Lits(line), [OptSlash] + Lits(line[1..]) + [Below]);
  }

  lemma AnchorRooted(t: string)
    requires t != "" && t[0] == '/' && t[|t|-1] != '/'
    ensures Anchor(Lits(t)) == [OptSlash] + Lits(t[1..]) + [Below]
  {
    assert Lits(t)[1..] == Lits(t[1..]);
  }

  lemma NoStarNoGlob(line: string)
    requires '*' !in line
    ensures !FolderGlob(line)
  {
  }

  /** Main result: a line that is a path from the base, without wildcards, ignores exactly this path and what is below. */
  lemma PathLine(line: string, r: string, isDir: bool)
    requires NamesPath(line) && '*' !in line && Unadorned(line) && NamesPath(r)
    ensures ParserOf([line]).Matches(r, isDir) <==> Covers(line, r)
  {
    RootedCompiled(line);
    OnlyPlace(line);
    TextLineMatches(line, OptSlash, line[1..], r, isDir);
  }

  lemma OnlyPlace(line: string)
    requires NamesPath(line)
    ensures Inner(line[1..]) && forall p :: Placed(OptSlash, line[1..], p) <==> p == line
  {
    assert line == "/" + line[1..];
  }

  // ---------------------------------------------------------------------------------------------
  // A name, without wildcards
  // ---------------------------------------------------------------------------------------------

  lemma NameCompiled(line: string)
    requires '/' !in line && '*' !in line && Unadorned(line)
    ensures PatternFromLine(line) == Some(Pattern([AnyDirs] + Lits(line) + [Below], false))
  {
    NoStarIsLiteral(line);
    PlainCompiled(line);
    NoStarNoGlob(line);
    NameIsInner(line);
    AnchorUnrooted(line);
    CompiledTo(line, Lits(line), [AnyDirs] + Lits(line) + [Below]);
  }

  lemma NameIsInner(name: string)
    requires name != "" && '/' !in name
    ensures Inner(name)
  {
    assert name[0] in name && name[|name|-1] in name;
  }

  lemma AnchorUnrooted(t: string)
    requires t != "" && t[0] != '/' && t[|t|-1] != '/'
    ensures Anchor(Lits(t)) == [AnyDirs] + Lits(t) + [Below]
  {
  }

  /** A name is among the segments exactly if some covering path ends in it. */
  lemma NameIsSegment(name: string, r: string)
    requires name != "" && '/' !in name && NamesPath(r)
    ensures (exists p :: EndsIn(p, name) && Covers(p, r)) <==> name in Split(r)
  {
    if p :| EndsIn(p, name) && Covers(p, r) {
      var x, w := p[..|p|-|name|-1], r[|p|..];
      assert r == x + ['/'] + (name + w);
      SplitApart(x, '/', name + w);
      if w == "" {
        assert name + w == name;
        SplitNothing(name, '/');
      } else {
        assert name + w == name + ['/'] + w[1..];
        SplitConcat(name, '/', w[1..]);
      }
    }
    if name in Split(r) {
      var i :| 0 <= i < |Split(r)| && Split(r)[i] == name;
      SegmentCovers(r, i);
    }
  }

  lemma SegmentCovers(r: string, i: nat)
    requires NamesPath(r) && i < |Split(r)| && Split(r)[i] != ""
    ensures var p := Join(Split(r)[..i+1]); EndsIn(p, Split(r)[i]) && Covers(p, r)
  {
    var parts := Split(r);
    assert i > 0;
    assert parts[..i+1] == parts[..i] + [parts[i]];
    JoinLast(parts[..i], parts[i], '/');
    if i + 1 < |parts| {
      JoinedPrefixIsAbove(r, i + 1);
    } else {
      assert parts[..i+1] == parts;
      JoinSplit(r, '/');
    }
  }

  /** Main result: a line that is a name without wildcards ignores exactly the paths that have it as a segment. */
  lemma NameLine(line: string, r: string, isDir: bool)
    requires '/' !in line && '*' !in line && Unadorned(line) && NamesPath(r)
    ensures ParserOf([line]).Matches(r, isDir) <==> line in Split(r)
  {
    NameCompiled(line);
    NameIsInner(line);
    TextLineMatches(line, AnyDirs, line, r, isDir);
    assert forall p :: Placed(AnyDirs, line, p) <==> EndsIn(p, line);
    NameIsSegment(line, r);
  }

  // ---------------------------------------------------------------------------------------------
  // Files with an extension in a folder
  // ---------------------------------------------------------------------------------------------

  /** Some name on the way does not end in a plus sign; only then the line is anchored at the base. */
  predicate SomeNameWithoutPlus(folder: string) {
    exists i | 0 <= i < |folder| :: folder[i] != '/' && folder[i] != '+' && (i + 1 == |folder| || folder[i+1] == '/')
  }

  lemma OnlyStar(folder: string, ext: string, line: string)
    requires '*' !in folder && '*' !in ext && line == folder + "/*." + ext
    ensures forall i :: 0 <= i < |folder| ==> line[i] == folder[i]
    ensures forall j :: 0 <= j < |line| && line[j] == '*' ==> j == |folder| + 1
  {
    assert forall j :: |folder| + 3 <= j < |line| ==> line[j] == ext[j-|folder|-3] && ext[j-|folder|-3] in ext;
    assert forall j :: 0 <= j < |folder| ==> line[j] == folder[j] && folder[j] in folder;
  }

  lemma GlobExactly(folder: string, ext: string, line: string)
    requires '*' !in folder && '*' !in ext && line == folder + "/*." + ext
    ensures FolderGlob(line) <==> SomeNameWithoutPlus(folder)
  {
    assert line[|folder|] == '/' && line[|folder|+1] == '*' && line[|folder|+2] == '.';
    OnlyStar(folder, ext, line);
    if i :| 0 <= i < |folder| && folder[i] != '/' && folder[i] != '+' && (i + 1 == |folder| || folder[i+1] == '/') {
      assert line[i+1] == '/';
    }
  }

  /** A text with one star that is not escaped. */
  lemma {:induction false} StarBetween(a: string, b: string)
    requires '*' !in a && '*' !in b && (a == "" || a[|a|-1] != '\\')
    ensures PlainTokens(a + "*" + b) == Lits(a) + [Star] + Lits(b) && !Contains(a + "*" + b, "**")
  {
    var t := a + "*" + b;
    OneStarOnly(a, b);
    if a == "" {
      assert t[1..] == b;
      NoStarIsLiteral(b);
    } else {
      StarBetween(a[1..], b);
      OneMoreBefore(a, b, t);
    }
  }

  lemma OneMoreBefore(a: string, b: string, t: string)
    requires a != "" && '*' !in a && (a[|a|-1] != '\\') && t == a + "*" + b
    ensures '*' !in a[1..] && t[1..] == a[1..] + "*" + b && PlainTokens(t) == [Lit(a[0])] + PlainTokens(t[1..])
    ensures Lits(a) == [Lit(a[0])] + Lits(a[1..])
  {
    assert a[0] in a && t[0] == a[0];
    assert |a| > 1 ==> t[1] == a[1] && a[1] in a;
  }

  lemma OneStarOnly(a: string, b: string)
    requires '*' !in a && '*' !in b
    ensures !Contains(a + "*" + b, "**")
  {
    var t := a + "*" + b;
    forall i | 0 <= i <= |t| ensures !("**" <= t[i..]) {
      if i + 1 < |t| {
        assert t[i..][0] == t[i] && t[i..][1] == t[i+1];
        assert i < |a| ==> t[i] == a[i];
        assert i > |a| ==> t[i] == b[i-|a|-1];
        assert i == |a| ==> t[i+1] == b[0];
      }
    }
  }

  /** Around a token: a text before it and one after it. */
  lemma SplitAround(a: string, tok: Tok, b: string, t: string) returns (x: string)
    requires RegexMatches(Lits(a) + [tok] + Lits(b), t)
    ensures TokMatches(tok, x) && t == a + x + b
  {
    var i := MatchesConcat(Lits(a) + [tok], Lits(b), t);
    var j := MatchesConcat(Lits(a), [tok], t[..i]);
    x := t[..i][j..];
    MatchesSingle(tok, x);
    LitsMatchThemselves(a, t[..i][..j]);
    LitsMatchThemselves(b, t[i..]);
  }

  lemma JoinAround(a: string, tok: Tok, b: string, x: string)
    requires TokMatches(tok, x)
    ensures RegexMatches(Lits(a) + [tok] + Lits(b), a + x + b)
  {
    MatchesSingle(tok, x);
    LitsMatchThemselves(a, a);
    LitsMatchThemselves(b, b);
    ConcatMatches(Lits(a), [tok], a, x);
    ConcatMatches(Lits(a) + [tok], Lits(b), a + x, b);
  }

  lemma AroundStar(a: string, b: string, t: string)
    ensures RegexMatches(Lits(a) + [Star] + Lits(b), t) <==> exists x :: '/' !in x && t == a + x + b
  {
    if RegexMatches(Lits(a) + [Star] + Lits(b), t) {
      var x := SplitAround(a, Star, b, t);
    }
    if x :| '/' !in x && t == a + x + b {
      JoinAround(a, Star, b, x);
    }
  }

  lemma GlobPattern(l: string, ts: seq<Tok>)
    requires l != "" && l[0] != '!' && l[0] != '#' && l[0] != '/' && FolderGlob(l) && Tokens("/" + l) == ts
    ensures PatternFromTrimmed(l) == Some(Pattern(Anchor(ts), false))
  {
    assert !("#" <= l) && !("!" <= l);
  }

  lemma AnchorParts(a: string, a': string, b: string)
    requires a != "" && b != "" && b[|b|-1] != '/' && (a == "/" + a' || (a == a' && a[0] != '/'))
    ensures Anchor(Lits(a) + [Star] + Lits(b)) ==
            [if a[0] == '/' then OptSlash else AnyDirs] + (Lits(a') + [Star] + Lits(b)) + [Below]
  {
    var t := Lits(a) + [Star] + Lits(b);
    assert t[0] == Lit(a[0]) && t[|t|-1] == Lit(b[|b|-1]);
    if a[0] == '/' {
      assert Lits(a)[1..] == Lits(a');
      assert t[1..] == Lits(a') + [Star] + Lits(b);
    }
  }

  function FirstToken(folder: string): Tok {
    if SomeNameWithoutPlus(folder) then OptSlash else AnyDirs
  }

  lemma GlobTokens(a: string, b: string, line: string)
    requires '*' !in a && '*' !in b && a != "" && a[|a|-1] != '\\' && line == a + "*" + b
    ensures Tokens(line) == Lits(a) + [Star] + Lits(b)
  {
    StarBetween(a, b);
    PlainCompiled(line);
  }

  lemma StartsInFolder(folder: string, ext: string, line: string)
    requires NamesPath("/" + folder) && line == folder + "/*." + ext
    ensures line != "" && line[0] == folder[0] != '/'
  {
    assert folder[0] == ("/" + folder)[1];
  }

  lemma AnchoredExtension(folder: string, ext: string, line: string)
    requires NamesPath("/" + folder) && '*' !in folder && '*' !in ext && '/' !in ext && SomeNameWithoutPlus(folder)
    requires line == folder + "/*." + ext && Unadorned(line)
    ensures PatternFromTrimmed(line) == Some(Pattern([OptSlash] + (Lits(folder + "/") + [Star] + Lits("." + ext)) + [Below], false))
  {
    GlobExactly(folder, ext, line);
    StartsInFolder(folder, ext, line);
    GlobTokens("/" + (folder + "/"), "." + ext, "/" + line);
    GlobPattern(line, Tokens("/" + line));
    ExtensionEnds(ext);
    AnchorParts("/" + (folder + "/"), folder + "/", "." + ext);
  }

  lemma ExtensionEnds(ext: string)
    requires '/' !in ext
    ensures ("." + ext)[|ext|] != '/'
  {
  }

  lemma UnanchoredExtension(folder: string, ext: string, line: string)
    requires NamesPath("/" + folder) && '*' !in folder && '*' !in ext && '/' !in ext && !SomeNameWithoutPlus(folder)
    requires line == folder + "/*." + ext && Unadorned(line)
    ensures PatternFromTrimmed(line) == Some(Pattern([AnyDirs] + (Lits(folder + "/") + [Star] + Lits("." + ext)) + [Below], false))
  {
    GlobExactly(folder, ext, line);
    StartsInFolder(folder, ext, line);
    GlobTokens(folder + "/", "." + ext, line);
    PlainPattern(line, Tokens(line));
    ExtensionEnds(ext);
    AnchorParts(folder + "/", folder + "/", "." + ext);
  }

  /** A file in the folder, with the extension. */
  function FileIn(folder: string, x: string, ext: string): string {
    folder + "/" + x + "." + ext
  }

  lemma ExtensionTexts(folder: string, ext: string, t: string)
    requires NamesPath("/" + folder) && '/' !in ext
    ensures RegexMatches(Lits(folder + "/") + [Star] + Lits("." + ext), t) <==> exists x :: '/' !in x && t == FileIn(folder, x, ext)
    ensures RegexMatches(Lits(folder + "/") + [Star] + Lits("." + ext), t) ==> Inner(t)
  {
    AroundStar(folder + "/", "." + ext, t);
    forall x ensures folder + "/" + x + ("." + ext) == FileIn(folder, x, ext) {
    }
    if x :| '/' !in x && t == FileIn(folder, x, ext) {
      assert folder[0] == ("/" + folder)[1] && t[0] == folder[0];
      assert t[|t|-1] == if ext == "" then '.' else ext[|ext|-1];
    }
  }

  /** Main result: a line for the files with an extension in a folder ignores what is covered by such a file in the folder as
      seen from the base; or in a folder of that name anywhere, if all names on the way end in a plus sign. */
  lemma ExtensionLine(folder: string, ext: string, line: string, r: string, isDir: bool)
    requires NamesPath("/" + folder) && '*' !in folder && '*' !in ext && '/' !in ext
    requires line == folder + "/*." + ext && Unadorned(line) && NamesPath(r)
    ensures ParserOf([line]).Matches(r, isDir) <==>
              exists p, x :: '/' !in x && Covers(p, r)
                && (if SomeNameWithoutPlus(folder) then p == "/" + FileIn(folder, x, ext) else EndsIn(p, FileIn(folder, x, ext)))
  {
    ExtensionCompiled(folder, ext, line);
    ExtensionInner(folder, ext);
    LineMatches(line, FirstToken(folder), ExtensionTokens(folder, ext), r, isDir);
    ExtensionPlaces(folder, ext, r);
  }

  function ExtensionTokens(folder: string, ext: string): seq<Tok> {
    Lits(folder + "/") + [Star] + Lits("." + ext)
  }

  lemma ExtensionCompiled(folder: string, ext: string, line: string)
    requires NamesPath("/" + folder) && '*' !in folder && '*' !in ext && '/' !in ext
    requires line == folder + "/*." + ext && Unadorned(line)
    ensures PatternFromLine(line) == Some(Pattern([FirstToken(folder)] + ExtensionTokens(folder, ext) + [Below], false))
  {
    Untrimmed(line);
    if SomeNameWithoutPlus(folder) {
      AnchoredExtension(folder, ext, line);
    } else {
      UnanchoredExtension(folder, ext, line);
    }
  }

  lemma ExtensionInner(folder: string, ext: string)
    requires NamesPath("/" + folder) && '/' !in ext
    ensures forall t :: RegexMatches(ExtensionTokens(folder, ext), t) ==> Inner(t)
  {
    forall t | RegexMatches(ExtensionTokens(folder, ext), t) ensures Inner(t) {
      ExtensionTexts(folder, ext, t);
    }
  }

  lemma ExtensionPlaces(folder: string, ext: string, r: string)
    requires NamesPath("/" + folder) && '/' !in ext
    ensures (exists p, t :: RegexMatches(ExtensionTokens(folder, ext), t) && Placed(FirstToken(folder), t, p) && Covers(p, r)) <==>
            exists p, x :: '/' !in x && Covers(p, r) && Placed(FirstToken(folder), FileIn(folder, x, ext), p)
  {
    if p, t :| RegexMatches(ExtensionTokens(folder, ext), t) && Placed(FirstToken(folder), t, p) && Covers(p, r) {
      ExtensionTexts(folder, ext, t);
      var x :| '/' !in x && t == FileIn(folder, x, ext);
    }
    if p, x :| '/' !in x && Covers(p, r) && Placed(FirstToken(folder), FileIn(folder, x, ext), p) {
      ExtensionTexts(folder, ext, FileIn(folder, x, ext));
    }
  }
}
