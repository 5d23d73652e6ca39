/** Matching with the regular expressions of exclude lines. */
module RegexMatching {
  import opened IgnoreParser
  import opened Paths

  // ---------------------------------------------------------------------------------------------
  // Matching of token sequences
  // ---------------------------------------------------------------------------------------------

  lemma FirstMatch(ts: seq<Tok>, s: string) returns (k: nat)
    requires ts != [] && RegexMatches(ts, s)
    ensures k <= |s| && MatchesAt(ts, s, k)
  {
    k :| 0 <= k <= |s| && MatchesAt(ts, s, k);
  }

  lemma MatchesSingle(t: Tok, s: string)
    ensures RegexMatches([t], s) <==> TokMatches(t, s)
  {
    assert s[..|s|] == s && s[|s|..] == "";
    assert MatchesAt([t], s, |s|) <==> TokMatches(t, s);
    if RegexMatches([t], s) {
      var j := FirstMatch([t], s);
      assert [t][1..] == [] && RegexMatches([], s[j..]);
    }
  }

  /** A concatenation matches exactly the strings that split into matches of its parts. */
  lemma {:induction false} MatchesConcat(a: seq<Tok>, b: seq<Tok>, s: string) returns (k: nat)
    requires RegexMatches(a + b, s)
    ensures k <= |s| && RegexMatches(a, s[..k]) && RegexMatches(b, s[k..])
  {
    if a == [] {
      k := 0;
      assert a + b == b && s[0..] == s && s[..0] == "";
    } else {
      var j := FirstMatch(a + b, s);
      assert (a + b)[1..] == a[1..] + b;
      var i := MatchesConcat(a[1..], b, s[j..]);
      k := j + i;
      assert s[..k][..j] == s[..j] && s[..k][j..] == s[j..][..i] && s[j..][i..] == s[k..];
      assert MatchesAt(a, s[..k], j);
    }
  }

  lemma {:induction false} ConcatMatches(a: seq<Tok>, b: seq<Tok>, s: string, r: string)
    requires RegexMatches(a, s) && RegexMatches(b, r)
    ensures RegexMatches(a + b, s + r)
  {
    if a == [] {
      assert a + b == b && s + r == r;
    } else {
      var j := FirstMatch(a, s);
      ConcatMatches(a[1..], b, s[j..], r);
      assert (a + b)[1..] == a[1..] + b && (s + r)[..j] == s[..j] && (s + r)[j..] == s[j..] + r;
      assert MatchesAt(a + b, s + r, j);
    }
  }

  /** A match, cut around what one of the tokens takes. */
  lemma CutToken(ts: seq<Tok>, i: nat, s: string) returns (u: string, v: string, w: string)
    requires i < |ts| && RegexMatches(ts, s)
    ensures s == u + v + w && RegexMatches(ts[..i], u) && TokMatches(ts[i], v) && RegexMatches(ts[i+1..], w)
  {
    assert ts == ts[..i] + ([ts[i]] + ts[i+1..]);
    var k := MatchesConcat(ts[..i], [ts[i]] + ts[i+1..], s);
    var l := MatchesConcat([ts[i]], ts[i+1..], s[k..]);
    u, v, w := s[..k], s[k..][..l], s[k..][l..];
    MatchesSingle(ts[i], v);
  }

  lemma JoinAroundToken(ts: seq<Tok>, i: nat, u: string, v: string, w: string)
    requires i < |ts| && RegexMatches(ts[..i], u) && TokMatches(ts[i], v) && RegexMatches(ts[i+1..], w)
    ensures RegexMatches(ts, u + v + w)
  {
    MatchesSingle(ts[i], v);
    ConcatMatches(ts[..i], [ts[i]], u, v);
    ConcatMatches(ts[..i] + [ts[i]], ts[i+1..], u + v, w);
    assert ts == ts[..i] + [ts[i]] + ts[i+1..];
  }

  lemma {:induction false} LitsMatchThemselves(t: string, s: string)
    ensures RegexMatches(Lits(t), s) <==> s == t
  {
    if t != "" {
      assert Lits(t) != [] && Lits(t)[1..] == Lits(t[1..]);
      if s == t {
        LitsMatchThemselves(t[1..], s[1..]);
        assert MatchesAt(Lits(t), s, 1);
      }
      if RegexMatches(Lits(t), s) {
        var j := FirstMatch(Lits(t), s);
        LitsMatchThemselves(t[1..], s[j..]);
        assert s == s[..j] + s[j..];
      }
    }
  }

  predicate NoSlash(t: Tok) {
    match t
    case Lit(c) => c != '/'
    case EscapedStar => true
    case Star => true
    case _ => false
  }

  lemma {:induction false} NoSlashMatches(ts: seq<Tok>, s: string)
    requires RegexMatches(ts, s) && forall t :: t in ts ==> NoSlash(t)
    ensures '/' !in s
  {
    if ts != [] {
      var j := FirstMatch(ts, s);
      NoSlashMatches(ts[1..], s[j..]);
      assert ts[0] in ts && s == s[..j] + s[j..];
    }
  }

  // ---------------------------------------------------------------------------------------------
  // Matching the empty string
  // ---------------------------------------------------------------------------------------------

  predicate Nullable(t: Tok) {
    !t.Lit? && !t.EscapedStar? && !t.Between?
  }

  predicate AllNullable(ts: seq<Tok>) {
    forall t :: t in ts ==> Nullable(t)
  }

  lemma {:induction false} EmptyMatch(ts: seq<Tok>)
    ensures RegexMatches(ts, "") <==> AllNullable(ts)
  {
    if ts != [] {
      EmptyMatch(ts[1..]);
      assert ts == [ts[0]] + ts[1..] && ts[0] in ts;
      assert MatchesAt(ts, "", 0) <==> AllNullable(ts);
    }
  }

  // ---------------------------------------------------------------------------------------------
  // Paths as they are matched: directories end in a slash
  // ---------------------------------------------------------------------------------------------

  predicate EndsInSlash(d: string) {
    d != "" && d[|d|-1] == '/'
  }

  /** A non-empty relative path: what is appended to a directory's path and slash to name something in it. */
  predicate IsInside(x: string) {
    x != "" && x[0] != '/'
  }

  /** The first name of a relative path, and the rest of it with its slash. */
  function FirstName(x: string): (n: nat)
    ensures n <= |x| && '/' !in x[..n] && (n < |x| ==> x[n] == '/')
  {
    if x == "" || x[0] == '/' then 0
    else
      var m := FirstName(x[1..]);
      assert x[..m+1] == [x[0]] + x[1..][..m];
      m + 1
  }

  /** A directory's relative path with its slash: a slash before each of its names, and one at the end. */
  predicate DirectoryPath(d: string) {
    |d| > 1 && d[0] == '/' && d[|d|-1] == '/' && NoDoubleSlash(d)
  }

  lemma NoDoubleSlashAfter(s: string, k: nat)
    requires k <= |s| && NoDoubleSlash(s)
    ensures NoDoubleSlash(s[k..])
  {
  }
}
