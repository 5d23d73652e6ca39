/** More exclude lines of which it is said, in terms of the text of the line and of the path alone, what they ignore: with
    two stars, with a slash at the end, and lines that are none. */
module ExcludedPatterns {
  import opened ExcludedPaths
  import opened IgnoreParser
  import opened NegatedPaths
  import opened Paths
  import opened PruningLimits
  import opened RegexMatching
  import opened Wrappers

  // ---------------------------------------------------------------------------------------------
  // Replacing two stars
  // ---------------------------------------------------------------------------------------------

  lemma NothingReplaced(ts: seq<Tok>, pat: seq<Tok>, tok: Tok)
    requires Lit('*') in pat && Lit('*') !in ts
    ensures ReplaceAll(ts, pat, tok) == ts
  {
    forall i | 0 <= i <= |ts| - |pat| ensures ts[i..][..|pat|] != pat {
      assert forall t :: t in ts[i..][..|pat|] ==> t in ts;
    }
    ReplaceAbsent(ts, pat, tok);
  }

  /** The pattern is found where its first star is. */
  lemma {:induction false} ReplacedOnce(x: seq<Tok>, pat: seq<Tok>, k: nat, y: seq<Tok>, tok: Tok)
    requires k < |pat| && pat[k] == Lit('*') && Lit('*') !in pat[..k] && Lit('*') !in x && Lit('*') !in y
    ensures ReplaceAll(x + pat + y, pat, tok) == x + [tok] + y
  {
    var ts := x + pat + y;
    if x == [] {
      assert ts[..|pat|] == pat && ts[|pat|..] == y;
      NothingReplaced(y, pat, tok);
    } else {
      assert ts[k] != pat[k] by {
        if k >= |x| {
          assert ts[k] == pat[..k][k-|x|];
        } else {
          assert ts[k] == x[k];
        }
      }
      assert ts[..|pat|][k] == ts[k];
      assert ts[1..] == x[1..] + pat + y;
      ReplacedOnce(x[1..], pat, k, y, tok);
      assert [x[0]] + (x[1..] + [tok] + y) == x + [tok] + y;
    }
  }

  lemma NoStarIn(t: string)
    requires '*' !in t
    ensures Lit('*') !in Lits(t)
  {
    forall i | 0 <= i < |t| ensures Lits(t)[i] != Lit('*') {
      assert t[i] in t;
    }
  }

  /** The passes after the one that has replaced all stars change nothing. */
  lemma RestUnchanged(ts: seq<Tok>)
    requires Lit('*') !in ts
    ensures ReplaceAll(ts, Lits("**/"), AnyDirs) == ts && ReplaceAll(ts, Lits("/**"), Below) == ts
    ensures ReplaceAll(ts, Lits("\\*"), EscapedStar) == ts && Stars(ts) == ts
  {
    assert Lits("**/")[0] == Lit('*') && Lits("/**")[1] == Lit('*') && Lits("\\*")[1] == Lit('*');
    NothingReplaced(ts, Lits("**/"), AnyDirs);
    NothingReplaced(ts, Lits("/**"), Below);
    NothingReplaced(ts, Lits("\\*"), EscapedStar);
  }

  lemma NoDotGlob(a: string, pat: string, b: string)
    requires '*' !in a && '*' !in b && (pat == "/**/" || pat == "**/" || pat == "/**")
    requires pat == "/**" ==> b == ""
    ensures !FolderGlob(a + pat + b)
  {
    var l := a + pat + b;
    assert forall j :: 0 <= j < |a| ==> l[j] == a[j] && a[j] in a;
    assert forall j :: |a| + |pat| <= j < |l| ==> l[j] == b[j-|a|-|pat|] && b[j-|a|-|pat|] in b;
    assert forall j :: 0 <= j < |pat| ==> l[|a|+j] == pat[j];
  }

  // ---------------------------------------------------------------------------------------------
  // Anything between two parts
  // ---------------------------------------------------------------------------------------------

  lemma BetweenTokens(a: string, b: string)
    requires NamesPath(a) && '*' !in a && '*' !in b
    ensures Tokens(a + "/**/" + b) == Lits(a) + [Between] + Lits(b)
  {
    var l := a + "/**/" + b;
    assert l[1] == a[1] && a[1] in a;
    assert !("/**/" <= l);
    assert Lits(l) == Lits(a) + Lits("/**/") + Lits(b);
    NoStarIn(a);
    NoStarIn(b);
    assert Lits("/**/")[..1] == [Lit('/')];
    ReplacedOnce(Lits(a), Lits("/**/"), 1, Lits(b), Between);
    RestUnchanged(Lits(a) + [Between] + Lits(b));
  }

  lemma BetweenAnchored(a: string, b: string)
    requires NamesPath(a) && b != "" && b[|b|-1] != '/'
    ensures Anchor(Lits(a) + [Between] + Lits(b)) == [OptSlash] + (Lits(a[1..]) + [Between] + Lits(b)) + [Below]
  {
    var t := Lits(a) + [Between] + Lits(b);
    assert t[0] == Lit('/') && t[|t|-1] == Lit(b[|b|-1]);
    assert Lits(a)[1..] == Lits(a[1..]);
    assert t[1..] == Lits(a[1..]) + [Between] + Lits(b);
  }

  /** A slash, or two slashes with something between them. */
  predicate Way(m: string) {
    m == "/" || (|m| >= 3 && m[0] == '/' && m[|m|-1] == '/')
  }

  lemma BetweenTexts(a: string, b: string, t: string)
    ensures RegexMatches(Lits(a) + [Between] + Lits(b), t) <==> exists m :: Way(m) && t == a + m + b
  {
    if RegexMatches(Lits(a) + [Between] + Lits(b), t) {
      var m := SplitAround(a, Between, b, t);
      assert Way(m);
    }
    if m :| Way(m) && t == a + m + b {
      JoinAround(a, Between, b, m);
    }
  }

  lemma BetweenInner(a: string, b: string)
    requires NamesPath(a) && b != "" && b[|b|-1] != '/'
    ensures forall t :: RegexMatches(Lits(a[1..]) + [Between] + Lits(b), t) ==> Inner(t)
  {
    forall t | RegexMatches(Lits(a[1..]) + [Between] + Lits(b), t) ensures Inner(t) {
      BetweenTexts(a[1..], b, t);
      var m :| Way(m) && t == a[1..] + m + b;
      assert t[0] == a[1] && t[|t|-1] == b[|b|-1];
    }
  }

  lemma BetweenCompiled(a: string, b: string, line: string)
    requires NamesPath(a) && NamesPath("/" + b) && '*' !in a && '*' !in b && line == a + "/**/" + b && Unadorned(line)
    ensures PatternFromLine(line) == Some(Pattern([OptSlash] + (Lits(a[1..]) + [Between] + Lits(b)) + [Below], false))
  {
    BetweenTokens(a, b);
    NoDotGlob(a, "/**/", b);
    assert b[|b|-1] == ("/" + b)[|b|];
    BetweenAnchored(a, b);
    CompiledTo(line, Lits(a) + [Between] + Lits(b), [OptSlash] + (Lits(a[1..]) + [Between] + Lits(b)) + [Below]);
  }

  /** Main result: two paths with two stars between them ignore what is covered by a path that begins with the one, from the
      base, and ends with the other, below it. */
  lemma BetweenLine(a: string, b: string, line: string, r: string, isDir: bool)
    requires NamesPath(a) && NamesPath("/" + b) && '*' !in a && '*' !in b && line == a + "/**/" + b && Unadorned(line)
    requires NamesPath(r)
    ensures ParserOf([line]).Matches(r, isDir) <==> exists m :: Way(m) && Covers(a + m + b, r)
  {
    BetweenCompiled(a, b, line);
    assert b[|b|-1] == ("/" + b)[|b|];
    BetweenInner(a, b);
    LineMatches(line, OptSlash, Lits(a[1..]) + [Between] + Lits(b), r, isDir);
    BetweenPlaces(a, b, r);
  }

  lemma BetweenPlaces(a: string, b: string, r: string)
    requires NamesPath(a)
    ensures (exists p, t :: RegexMatches(Lits(a[1..]) + [Between] + Lits(b), t) && Placed(OptSlash, t, p) && Covers(p, r))
            <==> exists m :: Way(m) && Covers(a + m + b, r)
  {
    forall m ensures "/" + (a[1..] + m + b) == a + m + b {
    }
    if p, t :| RegexMatches(Lits(a[1..]) + [Between] + Lits(b), t) && Placed(OptSlash, t, p) && Covers(p, r) {
      BetweenTexts(a[1..], b, t);
      var m :| Way(m) && t == a[1..] + m + b;
      assert p == a + m + b;
    }
    if m :| Way(m) && Covers(a + m + b, r) {
      var t := a[1..] + m + b;
      BetweenTexts(a[1..], b, t);
      assert Placed(OptSlash, t, a + m + b);
    }
  }

  // ---------------------------------------------------------------------------------------------
  // Two stars at the beginning or at the end
  // ---------------------------------------------------------------------------------------------

  /** The passes over the text, one after the other. */
  lemma Passes(l: string, t0: seq<Tok>, t1: seq<Tok>, t2: seq<Tok>)
    requires !("/**/" <= l) && ReplaceAll(Lits(l), Lits("/**/"), Between) == t0
    requires ReplaceAll(t0, Lits("**/"), AnyDirs) == t1 && ReplaceAll(t1, Lits("/**"), Below) == t2
    requires Lit('*') !in t2
    ensures Tokens(l) == t2
  {
    RestUnchanged(t2);
  }

  lemma NothingBetweenFirst(name: string)
    requires '*' !in name
    ensures ReplaceAll(Lits("**/" + name), Lits("/**/"), Between) == Lits("**/" + name)
  {
    var ts, pat := Lits("**/" + name), Lits("/**/");
    NoStarIn(name);
    assert forall i :: 3 <= i < |ts| ==> ts[i] == Lits(name)[i-3];
    assert pat[2] == Lit('*') && ts[2] == Lit('/');
    forall i | 0 <= i <= |ts| - |pat| ensures ts[i..][..|pat|] != pat {
      assert ts[i..][..|pat|][2] == ts[i+2];
    }
    ReplaceAbsent(ts, pat, Between);
  }

  lemma AnywhereTokens(name: string)
    requires '*' !in name && name != ""
    ensures Tokens("**/" + name) == [AnyDirs] + Lits(name)
  {
    var l, t := "**/" + name, [AnyDirs] + Lits(name);
    NothingBetweenFirst(name);
    NoStarIn(name);
    StartReplaced(name);
    RestUnchanged(t);
    assert l[0] == '*';
    Passes(l, Lits(l), t, t);
  }

  lemma StartReplaced(name: string)
    requires '*' !in name
    ensures ReplaceAll(Lits("**/" + name), Lits("**/"), AnyDirs) == [AnyDirs] + Lits(name)
  {
    NoStarIn(name);
    assert Lits("**/" + name) == [] + Lits("**/") + Lits(name);
    ReplacedOnce([], Lits("**/"), 0, Lits(name), AnyDirs);
    assert [] + [AnyDirs] + Lits(name) == [AnyDirs] + Lits(name);
  }

  lemma AnyDirsTwice(u: string, v: string)
    requires RegexMatches([AnyDirs], u) && RegexMatches([AnyDirs], v)
    ensures RegexMatches([AnyDirs], u + v)
  {
    MatchesSingle(AnyDirs, u);
    MatchesSingle(AnyDirs, v);
    MatchesSingle(AnyDirs, u + v);
  }

  lemma TwoAnyDirs(mid: seq<Tok>, f: string)
    ensures RegexMatches([AnyDirs] + ([AnyDirs] + mid), f) <==> RegexMatches([AnyDirs] + mid, f)
  {
    if RegexMatches([AnyDirs] + ([AnyDirs] + mid), f) {
      var k := MatchesConcat([AnyDirs], [AnyDirs] + mid, f);
      var l := MatchesConcat([AnyDirs], mid, f[k..]);
      AnyDirsTwice(f[..k], f[k..][..l]);
      ConcatMatches([AnyDirs], mid, f[..k] + f[k..][..l], f[k..][l..]);
      assert f == f[..k] + f[k..][..l] + f[k..][l..];
    }
    if RegexMatches([AnyDirs] + mid, f) {
      MatchesSingle(AnyDirs, "");
      ConcatMatches([AnyDirs], [AnyDirs] + mid, "", f);
      assert "" + f == f;
    }
  }

  lemma AnywhereCompiled(name: string, line: string)
    requires '/' !in name && '*' !in name && name != "" && line == "**/" + name && Unadorned(line)
    ensures PatternFromLine(line) == Some(Pattern([AnyDirs] + ([AnyDirs] + Lits(name)) + [Below], false))
  {
    AnywhereTokens(name);
    NoDotGlob("", "**/", name);
    assert "" + "**/" + name == line;
    AnchorAnywhere(name);
    CompiledTo(line, [AnyDirs] + Lits(name), [AnyDirs] + ([AnyDirs] + Lits(name)) + [Below]);
  }

  lemma AnchorAnywhere(name: string)
    requires '/' !in name && name != ""
    ensures Anchor([AnyDirs] + Lits(name)) == [AnyDirs] + ([AnyDirs] + Lits(name)) + [Below]
  {
    assert name[|name|-1] in name;
  }

  /** Main result: two stars, a slash and a name ignore what the name alone ignores. */
  lemma AnywhereLine(name: string, line: string, r: string, isDir: bool)
    requires '/' !in name && '*' !in name && Unadorned(name) && line == "**/" + name && Unadorned(line) && NamesPath(r)
    ensures ParserOf([line]).Matches(r, isDir) <==> name in Split(r)
  {
    AnywhereCompiled(name, line);
    LineDecides(line, [AnyDirs] + ([AnyDirs] + Lits(name)) + [Below]);
    NameCompiled(name);
    LineDecides(name, [AnyDirs] + Lits(name) + [Below]);
    NameLine(name, r, isDir);
    TwoAnyDirsAround(Lits(name), AsMatched(r, isDir));
  }

  lemma TwoAnyDirsAround(mid: seq<Tok>, f: string)
    ensures RegexMatches([AnyDirs] + ([AnyDirs] + mid) + [Below], f) <==> RegexMatches([AnyDirs] + mid + [Below], f)
  {
    assert [AnyDirs] + ([AnyDirs] + mid) + [Below] == [AnyDirs] + ([AnyDirs] + (mid + [Below]));
    assert [AnyDirs] + mid + [Below] == [AnyDirs] + (mid + [Below]);
    TwoAnyDirs(mid + [Below], f);
  }

  lemma NothingAtTheEnd(dir: string)
    requires '*' !in dir
    ensures ReplaceAll(Lits(dir + "/**"), Lits("/**/"), Between) == Lits(dir + "/**")
    ensures ReplaceAll(Lits(dir + "/**"), Lits("**/"), AnyDirs) == Lits(dir + "/**")
  {
    var ts, n := Lits(dir + "/**"), |dir|;
    NoStarIn(dir);
    assert forall i :: 0 <= i < n ==> ts[i] == Lits(dir)[i];
    assert ts[n] == Lit('/') && Lits("/**/")[1] == Lit('*') && Lits("**/")[0] == Lit('*') && Lits("**/")[2] == Lit('/');
    forall i | 0 <= i <= |ts| - 4 ensures ts[i..][..4] != Lits("/**/") {
      assert ts[i..][..4][1] == ts[i+1];
    }
    forall i | 0 <= i <= |ts| - 3 ensures ts[i..][..3] != Lits("**/") {
      assert ts[i..][..3][0] == ts[i];
    }
    ReplaceAbsent(ts, Lits("/**/"), Between);
    ReplaceAbsent(ts, Lits("**/"), AnyDirs);
  }

  lemma EverythingTokens(dir: string)
    requires NamesPath(dir) && '*' !in dir
    ensures Tokens(dir + "/**") == Lits(dir) + [Below]
  {
    var l := dir + "/**";
    NothingAtTheEnd(dir);
    EndReplaced(dir);
    assert l[1] == dir[1] && dir[1] in dir;
    Passes(l, Lits(l), Lits(l), Lits(dir) + [Below]);
  }

  lemma EndReplaced(dir: string)
    requires '*' !in dir
    ensures ReplaceAll(Lits(dir + "/**"), Lits("/**"), Below) == Lits(dir) + [Below] && Lit('*') !in Lits(dir) + [Below]
  {
    NoStarIn(dir);
    assert Lits("/**")[..1] == [Lit('/')];
    assert Lits(dir + "/**") == Lits(dir) + Lits("/**") + [];
    ReplacedOnce(Lits(dir), Lits("/**"), 1, [], Below);
    assert Lits(dir) + [Below] + [] == Lits(dir) + [Below];
  }

  lemma BelowTwice(u: string, v: string)
    requires RegexMatches([Below], u) && RegexMatches([Below], v)
    ensures RegexMatches([Below], u + v)
  {
    MatchesSingle(Below, u);
    MatchesSingle(Below, v);
    MatchesSingle(Below, u + v);
  }

  lemma TwoBelow(mid: seq<Tok>, f: string)
    ensures RegexMatches(mid + [Below] + [Below], f) <==> RegexMatches(mid + [Below], f)
  {
    if RegexMatches(mid + [Below] + [Below], f) {
      var k := MatchesConcat(mid + [Below], [Below], f);
      var l := MatchesConcat(mid, [Below], f[..k]);
      BelowTwice(f[..k][l..], f[k..]);
      ConcatMatches(mid, [Below], f[..k][..l], f[..k][l..] + f[k..]);
      assert f == f[..k][..l] + (f[..k][l..] + f[k..]);
    }
    if RegexMatches(mid + [Below], f) {
      MatchesSingle(Below, "");
      ConcatMatches(mid + [Below], [Below], f, "");
      assert f + "" == f;
    }
  }

  lemma EverythingCompiled(dir: string, line: string)
    requires NamesPath(dir) && '*' !in dir && line == dir + "/**" && Unadorned(line)
    ensures PatternFromLine(line) == Some(Pattern([OptSlash] + Lits(dir[1..]) + [Below] + [Below], false))
  {
    EverythingTokens(dir);
    NoDotGlob(dir, "/**", "");
    assert dir + "/**" + "" == line;
    AnchorEverything(dir);
    CompiledTo(line, Lits(dir) + [Below], [OptSlash] + Lits(dir[1..]) + [Below] + [Below]);
  }

  lemma AnchorEverything(dir: string)
    requires dir != "" && dir[0] == '/'
    ensures Anchor(Lits(dir) + [Below]) == [OptSlash] + Lits(dir[1..]) + [Below] + [Below]
  {
    assert (Lits(dir) + [Below])[1..] == Lits(dir[1..]) + [Below];
  }

  /** Main result: a path followed by a slash and two stars ignores the path and what is below, as the path alone does. */
  lemma EverythingLine(dir: string, line: string, r: string, isDir: bool)
    requires NamesPath(dir) && '*' !in dir && Unadorned(dir) && line == dir + "/**" && Unadorned(line) && NamesPath(r)
    ensures ParserOf([line]).Matches(r, isDir) <==> Covers(dir, r)
  {
    EverythingCompiled(dir, line);
    LineDecides(line, [OptSlash] + Lits(dir[1..]) + [Below] + [Below]);
    RootedCompiled(dir);
    LineDecides(dir, [OptSlash] + Lits(dir[1..]) + [Below]);
    PathLine(dir, r, isDir);
    TwoBelow([OptSlash] + Lits(dir[1..]), AsMatched(r, isDir));
  }

  // ---------------------------------------------------------------------------------------------
  // A slash at the end
  // ---------------------------------------------------------------------------------------------

  lemma DirectoryCompiled(dir: string, line: string)
    requires NamesPath(dir) && '*' !in dir && line == dir + "/"
    ensures PatternFromLine(line) == Some(Pattern([OptSlash] + Lits(line[1..]) + [AnyRest], false))
  {
    assert Unadorned(line);
    NoStarIsLiteral(line);
    PlainCompiled(line);
    NoStarNoGlob(line);
    AnchorDirectory(line);
    CompiledTo(line, Lits(line), [OptSlash] + Lits(line[1..]) + [AnyRest]);
  }

  lemma AnchorDirectory(line: string)
    requires line != "" && line[0] == '/' && line[|line|-1] == '/'
    ensures Anchor(Lits(line)) == [OptSlash] + Lits(line[1..]) + [AnyRest]
  {
    assert Lits(line)[1..] == Lits(line[1..]);
  }

  lemma MatchedBegins(line: string, f: string)
    requires |line| > 2 && line[0] == '/' && line[1] != '/' && f != "" && f[0] == '/'
    requires RegexMatches([OptSlash] + Lits(line[1..]) + [AnyRest], f)
    ensures line <= f
  {
    var u, t, v := CutInThree(OptSlash, Lits(line[1..]), AnyRest, f);
    LitsMatchThemselves(line[1..], t);
    FirstOf(u, t, v);
    assert line == u + t;
  }

  lemma DirectoryMatches(line: string, f: string)
    requires |line| > 2 && line[0] == '/' && line[1] != '/' && f != "" && f[0] == '/'
    ensures RegexMatches([OptSlash] + Lits(line[1..]) + [AnyRest], f) <==> line <= f
  {
    if RegexMatches([OptSlash] + Lits(line[1..]) + [AnyRest], f) {
      MatchedBegins(line, f);
    }
    if line <= f {
      MatchesSingle(OptSlash, "/");
      MatchesSingle(AnyRest, f[|line|..]);
      LitsMatchThemselves(line[1..], line[1..]);
      ConcatMatches([OptSlash], Lits(line[1..]), "/", line[1..]);
      ConcatMatches([OptSlash] + Lits(line[1..]), [AnyRest], "/" + line[1..], f[|line|..]);
      assert f == "/" + line[1..] + f[|line|..];
    }
  }

  /** Main result: with a slash at its end, a path ignores what is below it, and itself only as a directory. */
  lemma DirectoryLine(dir: string, line: string, r: string, isDir: bool)
    requires NamesPath(dir) && '*' !in dir && line == dir + "/" && NamesPath(r)
    ensures ParserOf([line]).Matches(r, isDir) <==> Above(dir, r) || (r == dir && isDir)
  {
    DirectoryCompiled(dir, line);
    LineDecides(line, [OptSlash] + Lits(line[1..]) + [AnyRest]);
    assert line[1] == dir[1] && dir[1] != '/';
    DirectoryMatches(line, AsMatched(r, isDir));
    DirectoryPrefix(dir, r, isDir);
  }

  lemma DirectoryPrefix(dir: string, r: string, isDir: bool)
    ensures dir + "/" <= AsMatched(r, isDir) <==> Above(dir, r) || (r == dir && isDir)
  {
    AboveIsSlashPrefix(dir, r);
    var line, f := dir + "/", AsMatched(r, isDir);
    if line <= f && |line| > |r| {
      assert f == r + "/" && line == f;
      assert dir == line[..|dir|] == f[..|r|] == r;
    }
    if line <= f && |line| <= |r| {
      assert line == f[..|line|] == r[..|line|];
    }
    if line <= r {
      assert line == f[..|line|];
    }
  }

  // ---------------------------------------------------------------------------------------------
  // Lines that are none
  // ---------------------------------------------------------------------------------------------

  /** Comments, and lines of blanks, ignore nothing. */
  lemma NoLine(line: string, r: string, isDir: bool)
    requires "#" <= TrimRight(line, '\r') || Trim(TrimRight(line, '\r'), ' ') == ""
    ensures !ParserOf([line]).Matches(r, isDir)
  {
    assert [line][..0] == [];
    assert Patterns([line]) == [];
  }

  // ---------------------------------------------------------------------------------------------
  // A negating line after an excluding one
  // ---------------------------------------------------------------------------------------------

  lemma NegatedCompiled(b: string, line: string)
    requires NamesPath(b) && '*' !in b && Unadorned(b) && line == "!" + b
    ensures PatternFromLine(line) == Some(Pattern([OptSlash] + Lits(b[1..]) + [Below], true))
  {
    NotTrimmed(line, '\r');
    NotTrimmed(line, ' ');
    assert !("#" <= line) && line[1..] == b;
    NoStarIsLiteral(b);
    PlainCompiled(b);
    NoStarNoGlob(b);
    AnchorRooted(b);
    NegatedPattern(line, b);
  }

  lemma NegatedPattern(line: string, b: string)
    requires b != "" && b[0] == '/' && line == "!" + b && !FolderGlob(b)
    ensures PatternFromTrimmed(line) == Some(Pattern(Anchor(Tokens(b)), true))
  {
    assert !("#" <= b) && !("!" <= b) && line[1..] == b;
  }

  lemma NegatedClassified(b: string, line: string)
    requires NamesPath(b) && '*' !in b && Unadorned(b) && line == "!" + b
    ensures Classify(line) == Anchored(b)
  {
    NotTrimmed(line, ' ');
    NoStarIsLiteral(b);
    assert line[1..] == b;
    NoStarInDir(b);
  }

  /** The path's directory is made of some of its names. */
  lemma NoStarInDir(b: string)
    requires '*' !in b
    ensures !Contains(Dir(b), "*")
  {
    var parts := Split(b);
    forall i | 0 <= i < |parts| ensures '*' !in parts[i] {
      PartIsIn(b, i);
    }
    CleanedWithout(parts[..|parts|-1]);
    JoinedWithout(CleanSegments(parts[..|parts|-1]));
    StarAbsent(Dir(b), "*");
  }

  lemma {:induction false} PartIsIn(b: string, i: nat)
    requires '*' !in b && i < |Split(b)|
    ensures '*' !in Split(b)[i]
  {
    if b != "" {
      assert b == [b[0]] + b[1..];
      if b[0] == '/' {
        if i > 0 {
          PartIsIn(b[1..], i - 1);
        }
      } else {
        PartIsIn(b[1..], i);
      }
    }
  }

  lemma {:induction false} CleanedWithout(segs: seq<string>)
    requires forall i :: 0 <= i < |segs| ==> '*' !in segs[i]
    ensures forall i :: 0 <= i < |CleanSegments(segs)| ==> '*' !in CleanSegments(segs)[i]
  {
    if segs != [] {
      CleanedWithout(segs[..|segs|-1]);
    }
  }

  lemma {:induction false} JoinedWithout(segs: seq<string>)
    requires forall i :: 0 <= i < |segs| ==> '*' !in segs[i]
    ensures '*' !in Join(segs)
  {
    if |segs| > 1 {
      JoinedWithout(segs[1..]);
    }
  }

  lemma RootedRegex(line: string, r: string, isDir: bool)
    requires NamesPath(line) && '*' !in line && Unadorned(line) && NamesPath(r)
    ensures RegexMatches([OptSlash] + Lits(line[1..]) + [Below], AsMatched(r, isDir)) <==> Covers(line, r)
  {
    RootedCompiled(line);
    LineDecides(line, [OptSlash] + Lits(line[1..]) + [Below]);
    PathLine(line, r, isDir);
  }

  /** Main result: of a path that is excluded, a negating line keeps a path, what is below it, and the directories that lead
      to it. */
  lemma ExceptLine(a: string, b: string, line: string, r: string, isDir: bool)
    requires NamesPath(a) && '*' !in a && Unadorned(a) && NamesPath(b) && '*' !in b && Unadorned(b) && line == "!" + b
    requires NamesPath(r)
    ensures ParserOf([a] + [line]).Matches(r, isDir) <==> Covers(a, r) && !Covers(b, r) && !(isDir && Above(r, b))
  {
    RootedCompiled(a);
    NegatedCompiled(b, line);
    NegatedClassified(b, line);
    ExcludingIsPlain(a);
    var p, q := PatternFromLine(a).value, PatternFromLine(line).value;
    PatternsOfTwo(a, line, p, q);
    NegatesOfTwo(a, line, b);
    TwoLinesDecide(ParserOf([a] + [line]), p, q, b, r, isDir);
    RootedRegex(a, r, isDir);
    RootedRegex(b, r, isDir);
    AboveIsSlashPrefix(r, b);
  }
}
