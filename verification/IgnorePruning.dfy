/** Skipping an ignored directory together with its subtree loses nothing if whatever lies below it is ignored as
    well. Here is which compiled lines are such; PruningLimits shows what is wrong with the others. */
module IgnorePruning {
  import opened Paths
  import opened IgnoreParser
  import opened NegatedPaths
  import opened RegexMatching
  import opened Wrappers

  // ---------------------------------------------------------------------------------------------
  // Excluding lines: a match of a directory extends to everything in it
  // ---------------------------------------------------------------------------------------------

  predicate Ended(ts: seq<Tok>) {
    ts != [] && (ts[|ts|-1] == Below || ts[|ts|-1] == AnyRest)
  }

  /** The number of tokens up to the last one that cannot match nothing; the ones after it are optional. */
  function Required(ts: seq<Tok>): (n: nat)
    ensures n <= |ts| && AllNullable(ts[n..]) && (n > 0 ==> !Nullable(ts[n-1]))
  {
    if ts == [] then 0
    else
      var last := ts[|ts|-1];
      if !Nullable(last) then |ts|
      else
        var n := Required(ts[..|ts|-1]);
        assert ts[n..] == ts[..|ts|-1][n..] + [last];
        n
  }

  lemma AllOptional(ts: seq<Tok>)
    ensures AllNullable(ts) ==> Required(ts) == 0
  {
    assert Required(ts) > 0 ==> ts[Required(ts)-1] in ts;
  }

  /** Among optional tokens, one that can take up a name by itself. */
  predicate Absorbs(ts: seq<Tok>) {
    Star in ts || AnyRest in ts
  }

  predicate EndsWithSlash(t: Tok) {
    t == Between || t == Lit('/')
  }

  /** When a match of a directory is sure to extend to what is in it: decided by the last required token and the optional
      ones after it. If none of them takes up a name, the directory's final slash must be left to a `Below`. */
  predicate KeepsSubtree(ts: seq<Tok>) {
    var n := Required(ts);
    n == 0 || Absorbs(ts[n..]) || (!EndsWithSlash(ts[n-1]) && AnyDirs !in ts[n..])
  }

  lemma {:induction false} AbsorbsName(ts: seq<Tok>, x: string)
    requires AllNullable(ts) && Ended(ts) && Absorbs(ts)
    ensures RegexMatches(ts, x)
  {
    if |ts| == 1 {
      assert ts == [ts[0]];
      MatchesSingle(ts[0], x);
    } else if ts[0] == Star {
      var n := FirstName(x);
      NullableTail(ts[1..], x[n..]);
      assert MatchesAt(ts, x, n);
    } else {
      assert ts == [ts[0]] + ts[1..];
      if ts[0] == AnyRest {
        EmptyMatch(ts[1..]);
        assert x[..|x|] == x && x[|x|..] == "";
        assert MatchesAt(ts, x, |x|);
      } else {
        AbsorbsName(ts[1..], x);
        assert ts[0] in ts && MatchesAt(ts, x, 0);
      }
    }
  }

  lemma {:induction false} NullableTail(ts: seq<Tok>, r: string)
    requires AllNullable(ts) && Ended(ts) && (r == "" || r[0] == '/')
    ensures RegexMatches(ts, r)
  {
    if |ts| == 1 {
      assert ts == [ts[0]];
      MatchesSingle(ts[0], r);
    } else {
      NullableTail(ts[1..], r);
      assert ts[0] in ts && MatchesAt(ts, r, 0);
    }
  }

  /** Cuts a match between the required tokens and the optional ones. */
  lemma CutRequired(ts: seq<Tok>, s: string) returns (k: nat)
    requires RegexMatches(ts, s)
    ensures k <= |s| && RegexMatches(ts[..Required(ts)], s[..k]) && RegexMatches(ts[Required(ts)..], s[k..])
  {
    var n := Required(ts);
    assert ts == ts[..n] + ts[n..];
    k := MatchesConcat(ts[..n], ts[n..], s);
  }

  lemma JoinRequired(ts: seq<Tok>, u: string, v: string)
    requires RegexMatches(ts[..Required(ts)], u) && RegexMatches(ts[Required(ts)..], v)
    ensures RegexMatches(ts, u + v)
  {
    var n := Required(ts);
    assert ts == ts[..n] + ts[n..];
    ConcatMatches(ts[..n], ts[n..], u, v);
  }

  /** What the required tokens match ends in what their last one matches. */
  lemma LastTaken(ts: seq<Tok>, u: string)
    requires ts != [] && !Nullable(ts[|ts|-1]) && RegexMatches(ts, u)
    ensures u != ""
    ensures match ts[|ts|-1] {
              case Lit(c) => u[|u|-1] == c
              case EscapedStar => u[|u|-1] == '*'
              case _ => u[|u|-1] == '/'
            }
  {
    var last := ts[|ts|-1];
    assert ts == ts[..|ts|-1] + [last];
    var k := MatchesConcat(ts[..|ts|-1], [last], u);
    MatchesSingle(last, u[k..]);
  }

  /** Optional tokens none of which ends in a slash or takes up a name. */
  lemma {:induction false} TakesFromSlash(ts: seq<Tok>, v: string)
    requires AllNullable(ts) && !Absorbs(ts) && AnyDirs !in ts && RegexMatches(ts, v)
    ensures v == "" || v[0] == '/'
  {
    if ts != [] {
      var k := FirstMatch(ts, v);
      assert ts == [ts[0]] + ts[1..] && ts[0] in ts;
      if k == 0 {
        TakesFromSlash(ts[1..], v[0..]);
      } else {
        assert v[..k][0] == v[0];
      }
    }
  }

  lemma {:induction false} BelowTakesAll(ts: seq<Tok>, s: string)
    requires AllNullable(ts) && Below in ts && s != "" && s[0] == '/'
    ensures RegexMatches(ts, s)
  {
    assert ts == [ts[0]] + ts[1..];
    if ts[0] == Below {
      EmptyMatch(ts[1..]);
      assert s[..|s|] == s && s[|s|..] == "";
      assert MatchesAt(ts, s, |s|);
    } else {
      BelowTakesAll(ts[1..], s);
      assert ts[0] in ts && MatchesAt(ts, s, 0);
    }
  }

  lemma EndedIsOptional(ts: seq<Tok>)
    requires Ended(ts)
    ensures Required(ts) < |ts| && Ended(ts[Required(ts)..])
  {
    var n := Required(ts[..|ts|-1]);
    assert Nullable(ts[|ts|-1]) && Required(ts) == n;
    assert ts[n..][|ts|-n-1] == ts[|ts|-1];
  }

  /** The optional tokens that take what the directory's end leaves to them take everything. */
  lemma OptionalExtends(ts: seq<Tok>, v: string, x: string)
    requires AllNullable(ts) && Ended(ts) && x != ""
    requires Absorbs(ts) || (v != "" && v[0] == '/')
    ensures RegexMatches(ts, v + x)
  {
    if Absorbs(ts) {
      AbsorbsName(ts, v + x);
    } else {
      assert ts[|ts|-1] in ts;
      BelowTakesAll(ts, v + x);
    }
  }

  /** Unless a token takes up names, the optional tokens begin at a slash of the directory. */
  lemma OptionalFromSlash(ts: seq<Tok>, d: string, k: nat)
    requires Ended(ts) && KeepsSubtree(ts) && !Absorbs(ts[Required(ts)..]) && EndsInSlash(d) && d[0] == '/'
    requires k <= |d| && RegexMatches(ts[..Required(ts)], d[..k]) && RegexMatches(ts[Required(ts)..], d[k..])
    ensures k < |d| && d[k] == '/'
  {
    var n := Required(ts);
    if n > 0 {
      RequiredTaken(ts, n, d, k);
      TakesFromSlash(ts[n..], d[k..]);
    }
  }

  lemma RequiredTaken(ts: seq<Tok>, n: nat, d: string, k: nat)
    requires n == Required(ts) > 0 && !EndsWithSlash(ts[n-1]) && EndsInSlash(d)
    requires k <= |d| && RegexMatches(ts[..n], d[..k])
    ensures k < |d|
  {
    LastTaken(ts[..n], d[..k]);
  }

  /** If the condition holds, a match of a directory extends to everything in it. */
  lemma ExcludeExtends(ts: seq<Tok>, d: string, x: string)
    requires Ended(ts) && KeepsSubtree(ts)
    requires EndsInSlash(d) && d[0] == '/' && IsInside(x) && RegexMatches(ts, d)
    ensures RegexMatches(ts, d + x)
  {
    var n := Required(ts);
    var k := CutRequired(ts, d);
    EndedIsOptional(ts);
    if !Absorbs(ts[n..]) {
      OptionalFromSlash(ts, d, k);
    }
    OptionalExtends(ts[n..], d[k..], x);
    JoinRequired(ts, d[..k], d[k..] + x);
    assert d + x == d[..k] + (d[k..] + x);
  }

  // ---------------------------------------------------------------------------------------------
  // The condition is exact: otherwise some directory is matched with something in it that is not
  // ---------------------------------------------------------------------------------------------

  /** Optional tokens that do not take up names can only match up to a name from a slash on. */
  lemma {:induction false} NameNeedsSlash(ts: seq<Tok>, w: string)
    requires AllNullable(ts) && !Absorbs(ts) && RegexMatches(ts, w) && w != "" && w[|w|-1] != '/'
    ensures w[0] == '/' || !NoDoubleSlash(w)
  {
    assert ts == [ts[0]] + ts[1..] && ts[0] in ts;
    var k := FirstMatch(ts, w);
    if k == 0 {
      assert w[0..] == w;
      NameNeedsSlash(ts[1..], w);
    } else if ts[0] == AnyDirs {
      assert w[..k][k-1] == w[k-1] && w[k..][0] == w[k];
      NameNeedsSlash(ts[1..], w[k..]);
      if i :| 0 < i < |w[k..]| && w[k..][i] == '/' && w[k..][i-1] == '/' {
        assert w[k+i] == '/' && w[k+i-1] == '/';
      }
    } else {
      assert w[..k][0] == w[0];
    }
  }

  lemma {:induction false} AnyDirsTakes(ts: seq<Tok>, v: string)
    requires AllNullable(ts) && AnyDirs in ts && EndsInSlash(v)
    ensures RegexMatches(ts, v)
  {
    assert ts == [ts[0]] + ts[1..] && ts[0] in ts;
    if ts[0] == AnyDirs {
      EmptyMatch(ts[1..]);
      assert v[..|v|] == v && v[|v|..] == "";
      assert MatchesAt(ts, v, |v|);
    } else {
      AnyDirsTakes(ts[1..], v);
      assert v[0..] == v && MatchesAt(ts, v, 0);
    }
  }

  /** The shortest part of `s` that matches. */
  lemma {:induction false} ShortestMatch(ts: seq<Tok>, s: string, k: nat) returns (m: nat)
    requires k <= |s| && RegexMatches(ts, s[..k])
    ensures m <= k && RegexMatches(ts, s[..m]) && forall j :: 0 <= j < m ==> !RegexMatches(ts, s[..j])
  {
    if j :| 0 <= j < k && RegexMatches(ts, s[..j]) {
      m := ShortestMatch(ts, s, j);
    } else {
      m := k;
    }
  }

  /** If the last required token ends in a slash, nothing below directories can match. */
  lemma SlashBlocks(ts: seq<Tok>, d: string, c: char)
    requires var n := Required(ts); n > 0 && !Absorbs(ts[n..]) && EndsWithSlash(ts[n-1])
    requires DirectoryPath(d) && c != '/'
    ensures !RegexMatches(ts, d + [c])
  {
    var n, f := Required(ts), d + [c];
    if RegexMatches(ts, f) {
      var k := CutRequired(ts, f);
      LastTaken(ts[..n], f[..k]);
      assert f[k-1] == '/';
      assert f[k..][0] == f[k];
      NoDoubleSlashAfter(f, k);
      NameNeedsSlash(ts[n..], f[k..]);
    }
  }

  /** If the last required token ends in a name, optional directories lead astray from the shortest match. */
  lemma NameBlocks(ts: seq<Tok>, d0: string) returns (d: string, x: string)
    requires Ended(ts) && DirectoryPath(d0) && RegexMatches(ts, d0)
    requires var n := Required(ts); n > 0 && !Absorbs(ts[n..]) && !EndsWithSlash(ts[n-1]) && AnyDirs in ts[n..]
    ensures DirectoryPath(d) && IsInside(x) && NoDoubleSlash(x) && x[|x|-1] != '/'
    ensures RegexMatches(ts, d) && !RegexMatches(ts, d + x)
  {
    var n := Required(ts);
    var head := ts[..n];
    var b := if ts[n-1] == Lit('b') then 'z' else 'b';
    var k := CutRequired(ts, d0);
    var m := ShortestMatch(head, d0, k);
    var u := d0[..m];
    LastTaken(head, u);
    d, x := u + [b] + "/", [b];
    AnyDirsTakes(ts[n..], [b] + "/");
    JoinRequired(ts, u, [b] + "/");
    assert u + ([b] + "/") == d;
    assert forall i :: 0 <= i < m ==> d[i] == d0[i];
    NoOtherMatch(ts, d0, m, b);
  }

  lemma NoOtherMatch(ts: seq<Tok>, d0: string, m: nat, b: char)
    requires var n := Required(ts); n > 0 && !Absorbs(ts[n..]) && !EndsWithSlash(ts[n-1]) && ts[n-1] != Lit(b)
    requires b != '/' && b != '*' && 0 < m <= |d0| && d0[m-1] != '/'
    requires forall j :: 0 <= j < m ==> !RegexMatches(ts[..Required(ts)], d0[..j])
    ensures !RegexMatches(ts, d0[..m] + [b] + "/" + [b])
  {
    var n, f := Required(ts), d0[..m] + [b] + "/" + [b];
    assert forall j :: 0 <= j < m ==> f[..j] == d0[..j];
    if RegexMatches(ts, f) {
      var k := CutRequired(ts, f);
      LastTaken(ts[..n], f[..k]);
      assert f[..k][k-1] == f[k-1];
      assert k == m;
      assert f[m..] == [b] + "/" + [b];
      NameNeedsSlash(ts[n..], f[m..]);
    }
  }

  /** Without the condition, if any directory is matched at all, one is matched with something in it that is not. */
  lemma SubtreeLost(ts: seq<Tok>, d0: string) returns (d: string, x: string)
    requires Ended(ts) && !KeepsSubtree(ts) && DirectoryPath(d0) && RegexMatches(ts, d0)
    ensures DirectoryPath(d) && IsInside(x) && NoDoubleSlash(x) && x[|x|-1] != '/'
    ensures RegexMatches(ts, d) && !RegexMatches(ts, d + x)
  {
    var n := Required(ts);
    if EndsWithSlash(ts[n-1]) {
      SlashBlocks(ts, d0, 'a');
      d, x := d0, ['a'];
    } else {
      d, x := NameBlocks(ts, d0);
    }
  }

  // ---------------------------------------------------------------------------------------------
  // Whole parsers
  // ---------------------------------------------------------------------------------------------

  /** What is compiled of a line, without its first character. */
  function NegatedPath(line: string): string
    requires PatternFromLine(line).Some?
  {
    Trim(TrimRight(line, '\r'), ' ')[1..]
  }

  /** A line that ignores, or keeps, a directory together with what is in it. */
  predicate SubtreeLine(line: string) {
    match PatternFromLine(line)
    case None => true
    case Some(p) =>
      if p.negate then
        SafeNegate(NegatedPath(line))
      else
        KeepsSubtree(p.regex)
  }

  lemma {:induction false} PatternHasLine(lines: seq<string>, p: Pattern) returns (line: string)
    requires p in Patterns(lines)
    ensures line in lines && PatternFromLine(line) == Some(p)
  {
    var rest, l := lines[..|lines|-1], lines[|lines|-1];
    if PatternFromLine(l) == Some(p) {
      line := l;
    } else {
      line := PatternHasLine(rest, p);
    }
  }

  lemma {:induction false} AnchoredIsListed(lines: seq<string>, line: string)
    requires line in lines && Classify(line).Anchored?
    ensures Classify(line).path in AbsoluteNegates(lines)
  {
    if line != lines[|lines|-1] {
      assert lines == lines[..|lines|-1] + [lines[|lines|-1]];
      AnchoredIsListed(lines[..|lines|-1], line);
    }
  }

  /** The last matching line decides: excluding lines extend from `d` to `f`, negating ones only come with `d`. */
  lemma {:induction false} LastMatchExtends(ps: seq<Pattern>, d: string, f: string)
    requires MatchesPath(ps, d)
    requires forall p :: p in ps && !p.negate && RegexMatches(p.regex, d) ==> RegexMatches(p.regex, f)
    requires forall p :: p in ps && p.negate && RegexMatches(p.regex, f) ==> RegexMatches(p.regex, d)
    ensures MatchesPath(ps, f)
  {
    var rest, last := ps[..|ps|-1], ps[|ps|-1];
    assert ps == rest + [last] && last in ps;
    if !RegexMatches(last.regex, f) {
      LastMatchExtends(rest, d, f);
    }
  }

  predicate Blank(e: string) {
    forall i :: 0 <= i < |e| ==> e[i] == ' ' || e[i] == '\r'
  }

  lemma {:induction false} TrimRightDrops(s: string, c: char) returns (e: string)
    requires c == ' ' || c == '\r'
    ensures s == TrimRight(s, c) + e && Blank(e)
  {
    if s != "" && s[|s|-1] == c {
      var rest := TrimRightDrops(s[..|s|-1], c);
      e := rest + [c];
    } else {
      e := "";
    }
  }

  lemma {:induction false} TrimLeftConcat(a: string, e: string)
    requires TrimLeft(a, ' ') != ""
    ensures TrimLeft(a + e, ' ') == TrimLeft(a, ' ') + e
  {
    if a[0] == ' ' {
      assert (a + e)[1..] == a[1..] + e;
      TrimLeftConcat(a[1..], e);
    }
  }

  lemma {:induction false} TrimRightConcat(a: string, e: string) returns (e': string)
    requires a != "" && a[|a|-1] != ' ' && Blank(e)
    ensures TrimRight(a + e, ' ') == a + e' && Blank(e')
  {
    if e != "" && e[|e|-1] == ' ' {
      assert (a + e)[..|a + e|-1] == a + e[..|e|-1];
      e' := TrimRightConcat(a, e[..|e|-1]);
    } else {
      e' := e;
    }
  }

  /** The line as its classification sees it only has more at the end than the line that is compiled. */
  lemma TwoReadings(line: string) returns (e: string)
    requires Trim(TrimRight(line, '\r'), ' ') != ""
    ensures Trim(line, ' ') == Trim(TrimRight(line, '\r'), ' ') + e && Blank(e)
  {
    var l0 := TrimRight(line, '\r');
    var l1, left := Trim(l0, ' '), TrimLeft(l0, ' ');
    var r := TrimRightDrops(line, '\r');
    assert left == "" ==> TrimRight(left, ' ') == "";
    TrimLeftConcat(l0, r);
    var spaces := TrimRightDrops(left, ' ');
    assert left + r == l1 + (spaces + r);
    e := TrimRightConcat(l1, spaces + r);
  }

  lemma ContainsMore(p: string, e: string, sub: string)
    ensures Contains(p, sub) ==> Contains(p + e, sub)
  {
    if i :| 0 <= i <= |p| && sub <= p[i..] {
      assert (p + e)[i..] == p[i..] + e;
      assert sub <= (p + e)[i..];
    }
  }

  /** path.Dir does not depend on what is appended to the last name. */
  lemma SameDir(p: string, e: string)
    requires Blank(e)
    ensures Dir(p + e) == Dir(p)
  {
    if '/' in p {
      var l := LastSlash(p);
      var b, last := p[..l], p[l+1..];
      assert p == b + ['/'] + last;
      assert p + e == b + ['/'] + (last + e);
      SameSegments(b, last);
      SameSegments(b, last + e);
    } else {
      SplitPlain(p);
      SplitPlain(p + e);
    }
  }

  lemma SameSegments(b: string, last: string)
    requires '/' !in last
    ensures var parts := Split(b + ['/'] + last); parts[..|parts|-1] == Split(b)
  {
    SplitAtSlash(b, last);
    SplitPlain(last);
  }

  lemma NegateClassified(line: string, l: string, e: string)
    requires l == Trim(TrimRight(line, '\r'), ' ') && l != "" && l[0] == '!' && Trim(line, ' ') == l + e && Blank(e)
    requires !Classify(line).Unscoped?
    ensures Classify(line) == Anchored(l[1..] + e)
    ensures !Contains(l[1..], "**") && !Contains(Dir(l[1..]), "*")
  {
    assert (l + e)[1..] == l[1..] + e;
    assert Classify(line) == Anchored(l[1..] + e);
    ContainsMore(l[1..], e, "**");
    SameDir(l[1..], e);
  }

  lemma NegateLineRegex(line: string, l: string)
    requires l == Trim(TrimRight(line, '\r'), ' ') && l != "" && l[0] == '!'
    requires PatternFromLine(line).Some? && |l| > 1 && l[1] == '/' && !Contains(l[1..], "**")
    ensures PatternFromLine(line).value.regex == NegateRegex(l[1..])
  {
    PlainCompiled(l[1..]);
  }

  /** What the two readings make of a negating line that is anchored at the base. */
  lemma NegateReadings(line: string) returns (p: string, e: string)
    requires PatternFromLine(line).Some? && PatternFromLine(line).value.negate && !Classify(line).Unscoped?
    ensures Classify(line) == Anchored(p + e) && Blank(e) && p == NegatedPath(line)
    ensures PatternFromLine(line).value.regex == NegateRegex(p)
    ensures p != "" && p[0] == '/' && !Contains(p, "**") && !Contains(Dir(p), "*")
  {
    var l := Trim(TrimRight(line, '\r'), ' ');
    p := l[1..];
    e := TwoReadings(line);
    NegateClassified(line, l, e);
    RootedReading(line, l, e);
    NegateLineRegex(line, l);
  }

  lemma RootedReading(line: string, l: string, e: string)
    requires l != "" && l[0] == '!' && Trim(line, ' ') == l + e && Blank(e) && !Classify(line).Unscoped?
    ensures |l| > 1 && l[1] == '/'
  {
    assert (l + e)[1] == '/';
  }

  lemma NegateLine(line: string, d: string, x: string)
    requires DirectoryPath(d) && NoDoubleSlash(d + x) && SubtreeLine(line) && !Classify(line).Unscoped?
    requires PatternFromLine(line).Some? && PatternFromLine(line).value.negate
    requires RegexMatches(PatternFromLine(line).value.regex, d + x)
    ensures Classify(line).Anchored?
    ensures d <= Classify(line).path || RegexMatches(PatternFromLine(line).value.regex, d)
  {
    var p, e := NegateReadings(line);
    NegateReaches(p, d, x);
    PrefixTransitive(d, p, p + e);
  }

  lemma NormaliseRelative(r: string, isDir: bool)
    requires NamesPath(r)
    ensures Normalise(r, isDir) == r + if isDir then "/" else ""
  {
  }

  lemma RegexExtends(lines: seq<string>, d: string, x: string, p: Pattern)
    requires p in Patterns(lines) && !p.negate && DirectoryPath(d) && IsInside(x) && NoDoubleSlash(d + x)
    requires forall line :: line in lines ==> SubtreeLine(line)
    requires RegexMatches(p.regex, d)
    ensures RegexMatches(p.regex, d + x)
  {
    var line := PatternHasLine(lines, p);
    assert SubtreeLine(line);
    ExcludeExtends(p.regex, d, x);
  }

  lemma NegateComesWithDirectory(lines: seq<string>, d: string, x: string, p: Pattern)
    requires p in Patterns(lines) && p.negate && DirectoryPath(d) && IsInside(x) && NoDoubleSlash(d + x)
    requires forall line :: line in lines ==> SubtreeLine(line) && !Classify(line).Unscoped?
    requires RegexMatches(p.regex, d + x)
    requires forall n :: n in AbsoluteNegates(lines) ==> !(d <= n)
    ensures RegexMatches(p.regex, d)
  {
    var line := PatternHasLine(lines, p);
    assert SubtreeLine(line) && !Classify(line).Unscoped?;
    NegateLine(line, d, x);
    AnchoredIsListed(lines, line);
  }

  lemma PathExtends(lines: seq<string>, d: string, x: string)
    requires DirectoryPath(d) && IsInside(x) && NoDoubleSlash(d + x) && MatchesPath(Patterns(lines), d)
    requires forall line :: line in lines ==> SubtreeLine(line) && !Classify(line).Unscoped?
    requires forall n :: n in AbsoluteNegates(lines) ==> !(d <= n)
    ensures MatchesPath(Patterns(lines), d + x)
  {
    forall p | p in Patterns(lines) && !p.negate && RegexMatches(p.regex, d) ensures RegexMatches(p.regex, d + x) {
      RegexExtends(lines, d, x, p);
    }
    forall p | p in Patterns(lines) && p.negate && RegexMatches(p.regex, d + x) ensures RegexMatches(p.regex, d) {
      NegateComesWithDirectory(lines, d, x, p);
    }
    LastMatchExtends(Patterns(lines), d, d + x);
  }

  /** Main result: a parser that does not require a full scan ignores everything below an ignored directory. */
  lemma IgnoredBelowIgnored(lines: seq<string>, parser: Parser, d: string, f: string, isDir: bool)
    requires parser == ParserOf(lines) && !parser.requireFullScan
    requires forall line :: line in lines ==> SubtreeLine(line)
    requires NamesPath(d) && NamesPath(f) && Above(d, f)
    requires parser.Matches(d, true)
    ensures parser.Matches(f, isDir)
  {
    var d', f' := d + "/", f + if isDir then "/" else "";
    NormaliseRelative(d, true);
    NormaliseRelative(f, isDir);
    var x := InsideOf(d, f, isDir);
    PathExtends(lines, d', x);
    forall n | n in parser.absoluteNegatePatterns ensures !(f' <= n) {
      PrefixTransitive(d', f', n);
    }
  }

  lemma InsideOf(d: string, f: string, isDir: bool) returns (x: string)
    requires NamesPath(d) && NamesPath(f) && Above(d, f)
    ensures f + (if isDir then "/" else "") == (d + "/") + x && IsInside(x) && NoDoubleSlash((d + "/") + x)
    ensures DirectoryPath(d + "/")
  {
    x := (f + if isDir then "/" else "")[|d|+1..];
    assert f[..|d|] == d && f[|d|] == '/' && f[|d|+1] != '/';
    assert x[0] == f[|d|+1];
  }

  lemma PrefixTransitive(a: string, b: string, c: string)
    ensures a <= b <= c ==> a <= c
  {
    if a <= b <= c {
      assert c[..|a|] == b[..|a|];
    }
  }
}
