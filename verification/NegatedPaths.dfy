/** Negated paths that start at the base: how they are compiled, and exactly which of them can match below an ignored
    directory although that directory is not kept for them. */
module NegatedPaths {
  import opened Paths
  import opened IgnoreParser
  import opened RegexMatching

  // ---------------------------------------------------------------------------------------------
  // The compiled form of a path without double stars
  // ---------------------------------------------------------------------------------------------

  predicate StartsEscaped(t: string) {
    |t| >= 2 && t[0] == '\\' && t[1] == '*'
  }

  /** One token for each character, except that an escaped star is one token. */
  function PlainTokens(t: string): (ts: seq<Tok>)
    ensures t == "" <==> ts == []
  {
    if t == "" then []
    else if StartsEscaped(t) then [EscapedStar] + PlainTokens(t[2..])
    else [if t[0] == '*' then Star else Lit(t[0])] + PlainTokens(t[1..])
  }

  lemma {:induction false} ReplaceAbsent(ts: seq<Tok>, pat: seq<Tok>, tok: Tok)
    requires pat != []
    requires forall i :: 0 <= i <= |ts| - |pat| ==> ts[i..][..|pat|] != pat
    ensures ReplaceAll(ts, pat, tok) == ts
  {
    if |ts| >= |pat| {
      assert ts[0..][..|pat|] == ts[..|pat|];
      forall i | 0 <= i <= |ts[1..]| - |pat| ensures ts[1..][i..][..|pat|] != pat {
        assert ts[1..][i..] == ts[i+1..];
      }
      ReplaceAbsent(ts[1..], pat, tok);
    }
  }

  lemma NoDoubleStar(t: string, pat: string, tok: Tok, i: nat)
    requires !Contains(t, "**")
    requires (pat == "/**/" && i == 1) || (pat == "**/" && i == 0) || (pat == "/**" && i == 1)
    ensures ReplaceAll(Lits(t), Lits(pat), tok) == Lits(t)
  {
    var ts, p := Lits(t), Lits(pat);
    assert pat[i] == '*' && pat[i+1] == '*' && p[i] == Lit('*') && p[i+1] == Lit('*');
    forall k | 0 <= k <= |ts| - |p| ensures ts[k..][..|p|] != p {
      NotBothStars(t, k + i);
      assert ts[k..][..|p|][i] == Lit(t[k+i]) && ts[k..][..|p|][i+1] == Lit(t[k+i+1]);
    }
    ReplaceAbsent(ts, p, tok);
  }

  lemma NotBothStars(t: string, k: nat)
    requires !Contains(t, "**") && k + 1 < |t|
    ensures t[k] != '*' || t[k+1] != '*'
  {
    assert t[k..][0] == t[k] && t[k..][1] == t[k+1];
    assert !("**" <= t[k..]);
  }

  lemma OnlyEscapes(t: string)
    requires !Contains(t, "**")
    ensures Tokens(t) == Stars(ReplaceAll(Lits(t), Lits("\\*"), EscapedStar))
  {
    assert !("/**/" <= t) by {
      if |t| >= 3 {
        assert !("**" <= t[1..]);
        assert t[1..][0] == t[1] && t[1..][1] == t[2];
      }
    }
    NoDoubleStar(t, "/**/", Between, 1);
    NoDoubleStar(t, "**/", AnyDirs, 0);
    NoDoubleStar(t, "/**", Below, 1);
  }

  lemma {:induction false} StarsReplaced(t: string, pat: seq<Tok>)
    requires pat == [Lit('\\'), Lit('*')]
    ensures Stars(ReplaceAll(Lits(t), pat, EscapedStar)) == PlainTokens(t)
  {
    var ts := Lits(t);
    if |t| < 2 {
      assert t != "" ==> t[1..] == "";
    } else if StartsEscaped(t) {
      assert ts[..2] == pat && ts[2..] == Lits(t[2..]);
      StarsReplaced(t[2..], pat);
    } else {
      assert ts[..2][0] == Lit(t[0]) && ts[..2][1] == Lit(t[1]);
      assert ts[1..] == Lits(t[1..]);
      StarsReplaced(t[1..], pat);
    }
  }

  lemma PlainCompiled(t: string)
    requires !Contains(t, "**")
    ensures Tokens(t) == PlainTokens(t)
  {
    OnlyEscapes(t);
    assert Lits("\\*") == [Lit('\\'), Lit('*')];
    StarsReplaced(t, Lits("\\*"));
  }

  lemma {:induction false} PlainSplit(a: string, b: string)
    ensures PlainTokens(a + ['/'] + b) == PlainTokens(a) + ([Lit('/')] + PlainTokens(b))
  {
    var t := a + ['/'] + b;
    if a == "" {
      assert t[1..] == b;
    } else {
      var n := if StartsEscaped(a) then 2 else 1;
      assert StartsEscaped(t) <==> StartsEscaped(a);
      assert t[n..] == a[n..] + ['/'] + b;
      PlainSplit(a[n..], b);
    }
  }

  /** What a negated path without double stars is compiled to. */
  function NegateRegex(p: string): seq<Tok> {
    Anchor(PlainTokens(p))
  }

  /** An optional slash, the path without its first slash, and a tail. */
  lemma NegateShape(p: string) returns (tail: Tok)
    requires p != "" && p[0] == '/'
    ensures NegateRegex(p) == [OptSlash] + (PlainTokens(p[1..]) + [tail]) && (tail == Below || tail == AnyRest)
  {
    var ts := PlainTokens(p);
    assert ts[0] == Lit('/') && ts[1..] == PlainTokens(p[1..]);
    tail := Anchor(ts)[|Anchor(ts)|-1];
  }

  // ---------------------------------------------------------------------------------------------
  // Matches of compiled paths
  // ---------------------------------------------------------------------------------------------

  lemma SplitMatch(a: string, b: string, s: string) returns (u: string, v: string)
    requires RegexMatches(PlainTokens(a + ['/'] + b), s)
    ensures s == u + ['/'] + v && RegexMatches(PlainTokens(a), u) && RegexMatches(PlainTokens(b), v)
  {
    PlainSplit(a, b);
    u, v := CutAtSlash(PlainTokens(a), PlainTokens(b), s);
  }

  lemma CutAtSlash(x: seq<Tok>, y: seq<Tok>, s: string) returns (u: string, v: string)
    requires RegexMatches(x + ([Lit('/')] + y), s)
    ensures s == u + ['/'] + v && RegexMatches(x, u) && RegexMatches(y, v)
  {
    var ts := x + ([Lit('/')] + y);
    assert ts[..|x|] == x && ts[|x|] == Lit('/') && ts[|x|+1..] == y;
    var slash;
    u, slash, v := CutToken(ts, |x|, s);
  }

  lemma JoinMatch(a: string, b: string, u: string, v: string)
    requires RegexMatches(PlainTokens(a), u) && RegexMatches(PlainTokens(b), v)
    ensures RegexMatches(PlainTokens(a + ['/'] + b), u + ['/'] + v)
  {
    PlainSplit(a, b);
    MatchesSingle(Lit('/'), ['/']);
    ConcatMatches([Lit('/')], PlainTokens(b), ['/'], v);
    ConcatMatches(PlainTokens(a), [Lit('/')] + PlainTokens(b), u, ['/'] + v);
    assert u + (['/'] + v) == u + ['/'] + v;
  }

  function Slashes(s: string): nat {
    if s == "" then 0 else (if s[0] == '/' then 1 else 0) + Slashes(s[1..])
  }

  lemma {:induction false} SlashesConcat(a: string, b: string)
    ensures Slashes(a + b) == Slashes(a) + Slashes(b)
  {
    if a == "" {
      assert a + b == b;
    } else {
      assert (a + b)[1..] == a[1..] + b;
      SlashesConcat(a[1..], b);
    }
  }

  lemma SlashesAround(a: string, b: string)
    ensures Slashes(a + ['/'] + b) == Slashes(a) + 1 + Slashes(b)
  {
    SlashesConcat(a + ['/'], b);
    SlashesConcat(a, ['/']);
    assert Slashes(['/']) == 1;
  }

  lemma {:induction false} SlashesIn(s: string)
    ensures Slashes(s) > 0 <==> '/' in s
  {
    if s != "" {
      assert s == [s[0]] + s[1..];
      SlashesIn(s[1..]);
    }
  }

  /** What a token of such a path takes. */
  lemma TakenByFirst(t: string, s: string) returns (k: nat, n: nat)
    requires t != "" && RegexMatches(PlainTokens(t), s)
    ensures n == (if StartsEscaped(t) then 2 else 1)
    ensures k <= |s| && RegexMatches(PlainTokens(t[n..]), s[k..]) && TokMatches(PlainTokens(t)[0], s[..k])
  {
    n := if StartsEscaped(t) then 2 else 1;
    k := FirstMatch(PlainTokens(t), s);
    assert PlainTokens(t)[1..] == PlainTokens(t[n..]);
  }

  /** A match has as many slashes as the path. */
  lemma {:induction false} SlashesMatch(t: string, s: string)
    requires RegexMatches(PlainTokens(t), s)
    ensures Slashes(s) == Slashes(t)
  {
    if t != "" {
      var k, n := TakenByFirst(t, s);
      SlashesMatch(t[n..], s[k..]);
      SlashesConcat(s[..k], s[k..]);
      SlashesConcat(t[..n], t[n..]);
      assert s == s[..k] + s[k..] && t == t[..n] + t[n..];
      SlashesIn(s[..k]);
      SlashesIn(t[..n]);
      if !StartsEscaped(t) {
        assert t[..1] == [t[0]];
      }
    }
  }

  lemma NoSlashMatch(t: string, s: string)
    requires RegexMatches(PlainTokens(t), s) && '/' !in t
    ensures '/' !in s
  {
    SlashesMatch(t, s);
    SlashesIn(t);
    SlashesIn(s);
  }

  /** Two slashes in a row in the path give two in a row in every match. */
  lemma DoubleSlashMatch(t: string, s: string)
    requires RegexMatches(PlainTokens(t), s) && !NoDoubleSlash(t)
    ensures !NoDoubleSlash(s)
  {
    var i :| 0 < i < |t| && t[i] == '/' && t[i-1] == '/';
    var a, b := t[..i-1], t[i+1..];
    var c := [] + ['/'] + b;
    assert t == a + ['/'] + c;
    var u, v := SplitMatch(a, c, s);
    var u', v' := SplitMatch([], b, v);
    assert u' == "";
    assert s[|u|] == '/' && s[|u|+1] == '/';
  }

  lemma {:induction false} LiteralMatch(t: string, s: string)
    requires '*' !in t
    ensures RegexMatches(PlainTokens(t), s) <==> s == t
  {
    PlainLiterals(t);
    LitsMatchThemselves(t, s);
  }

  lemma {:induction false} PlainLiterals(t: string)
    requires '*' !in t
    ensures PlainTokens(t) == Lits(t)
  {
    if t != "" {
      assert t == [t[0]] + t[1..] && t[0] in t;
      assert !StartsEscaped(t) by {
        if |t| >= 2 {
          assert t[1] in t;
        }
      }
      PlainLiterals(t[1..]);
      assert Lits(t) == [Lit(t[0])] + Lits(t[1..]);
    }
  }

  /** A match of the whole, cut into the optional slash, the path itself and what the tail takes. */
  lemma NegateCut(p: string, f: string) returns (pre: string, mid: string, suf: string, tail: Tok)
    requires p != "" && p[0] == '/' && RegexMatches(NegateRegex(p), f)
    ensures f == pre + mid + suf && (pre == "" || pre == "/")
    ensures RegexMatches(PlainTokens(p[1..]), mid) && RegexMatches([tail], suf)
    ensures NegateRegex(p) == [OptSlash] + (PlainTokens(p[1..]) + [tail]) && (tail == Below || tail == AnyRest)
  {
    tail := NegateShape(p);
    pre, mid, suf := CutParts(PlainTokens(p[1..]), tail, f);
  }

  lemma CutParts(body: seq<Tok>, tail: Tok, f: string) returns (pre: string, mid: string, suf: string)
    requires RegexMatches([OptSlash] + (body + [tail]), f)
    ensures f == pre + mid + suf && (pre == "" || pre == "/")
    ensures RegexMatches(body, mid) && RegexMatches([tail], suf)
  {
    var a := MatchesConcat([OptSlash], body + [tail], f);
    pre := f[..a];
    MatchesSingle(OptSlash, pre);
    var b := MatchesConcat(body, [tail], f[a..]);
    mid, suf := f[a..][..b], f[a..][b..];
  }

  lemma NegateJoin(p: string, tail: Tok, pre: string, mid: string, suf: string, f: string)
    requires p != "" && NegateRegex(p) == [OptSlash] + (PlainTokens(p[1..]) + [tail]) && (tail == Below || tail == AnyRest)
    requires f == pre + mid + suf && (pre == "" || pre == "/")
    requires RegexMatches(PlainTokens(p[1..]), mid) && RegexMatches([tail], suf)
    ensures RegexMatches(NegateRegex(p), f)
  {
    JoinParts(PlainTokens(p[1..]), tail, pre, mid, suf);
  }

  lemma JoinParts(body: seq<Tok>, tail: Tok, pre: string, mid: string, suf: string)
    requires RegexMatches(body, mid) && RegexMatches([tail], suf) && (pre == "" || pre == "/")
    ensures RegexMatches([OptSlash] + (body + [tail]), pre + mid + suf)
  {
    ConcatMatches(body, [tail], mid, suf);
    MatchesSingle(OptSlash, pre);
    ConcatMatches([OptSlash], body + [tail], pre, mid + suf);
    assert pre + (mid + suf) == pre + mid + suf;
  }

  lemma TailShrinks(tail: Tok, s: string, r: string)
    requires (tail == Below || tail == AnyRest) && r <= s && r != "" && RegexMatches([tail], s)
    ensures RegexMatches([tail], r)
  {
    MatchesSingle(tail, s);
    MatchesSingle(tail, r);
  }

  lemma TailTakesNothing(tail: Tok)
    requires tail == Below || tail == AnyRest
    ensures RegexMatches([tail], "")
  {
    MatchesSingle(tail, "");
  }

  // ---------------------------------------------------------------------------------------------
  // The condition, and why it is enough
  // ---------------------------------------------------------------------------------------------

  /** The text up to the last slash. */
  function DirPart(p: string): string
    requires '/' in p
  {
    p[..LastSlash(p)]
  }

  /** The path cannot match below a directory that is neither a directory on its way nor matched itself: because it matches
      no path at all; or, if it starts with two slashes, because it is a single name, or a name with nothing or anything
      in it; or because there is no star in its directories. */
  predicate SafeNegate(p: string) {
    && p != "" && p[0] == '/'
    && (|| !NoDoubleSlash(p[1..])
        || if "//" <= p then
             var rest := p[2..];
             '/' !in rest || AfterName(rest) == "" || AfterName(rest) == "*"
           else '*' !in DirPart(p))
  }

  /** What comes after the first name and its slash. */
  function AfterName(s: string): string
    requires '/' in s
  {
    NameEnds(s);
    s[FirstName(s)+1..]
  }

  lemma NameEnds(s: string)
    requires '/' in s
    ensures FirstName(s) < |s|
  {
    assert s[..|s|] == s;
  }

  lemma BySuffix(p: string, tail: Tok, pre: string, mid: string, suf: string, d: string, x: string)
    requires p != "" && NegateRegex(p) == [OptSlash] + (PlainTokens(p[1..]) + [tail]) && (tail == Below || tail == AnyRest)
    requires d + x == pre + mid + suf && (pre == "" || pre == "/") && |pre + mid| < |d|
    requires RegexMatches(PlainTokens(p[1..]), mid) && RegexMatches([tail], suf)
    ensures RegexMatches(NegateRegex(p), d)
  {
    var f := d + x;
    var suf' := d[|pre + mid|..];
    assert f[..|d|] == d && suf == f[|pre + mid|..];
    assert suf' == suf[..|suf'|];
    TailShrinks(tail, suf, suf');
    assert f[..|pre + mid|] == pre + mid;
    NegateJoin(p, tail, pre, mid, suf', d);
  }

  lemma PrefixOf(d: string, x: string, u: string, v: string)
    requires d + x == u + v && |d| <= |u|
    ensures d == u[..|d|]
  {
    assert (d + x)[..|d|] == d && (u + v)[..|d|] == u[..|d|];
  }

  /** No star in the directories: the match goes through the directories named in the path. */
  lemma ThroughDirectories(p: string, d: string, x: string, pre: string, mid: string, suf: string)
    requires p != "" && p[0] == '/' && !("//" <= p) && '*' !in DirPart(p)
    requires DirectoryPath(d) && d + x == pre + mid + suf && (pre == "" || pre == "/") && |d| <= |pre + mid|
    requires RegexMatches(PlainTokens(p[1..]), mid)
    ensures d <= p
  {
    if LastSlash(p) == 0 {
      assert '/' !in p[1..];
      NoSlashMatch(p[1..], mid);
      OnlyFirstSlash(pre, mid);
      PrefixOf(d, x, pre + mid, suf);
    } else {
      var a, v := CutDirectories(p, mid);
      PrefixOf(d, x, pre + mid, suf);
      ThroughDirectoriesText(p, d, pre, a, v);
    }
  }

  lemma OnlyFirstSlash(pre: string, mid: string)
    requires '/' !in mid && |pre| <= 1
    ensures forall i :: 1 <= i < |pre + mid| ==> (pre + mid)[i] != '/'
  {
    forall i | 1 <= i < |pre + mid| ensures (pre + mid)[i] != '/' {
      assert (pre + mid)[i] == mid[i-|pre|];
    }
  }

  lemma CutDirectories(p: string, mid: string) returns (a: string, v: string)
    requires p != "" && p[0] == '/' && LastSlash(p) > 0 && '*' !in DirPart(p) && RegexMatches(PlainTokens(p[1..]), mid)
    ensures |a| + 2 <= |p| && p[..|a|+2] == ['/'] + a + ['/'] && mid == a + ['/'] + v && '/' !in v
  {
    var l := LastSlash(p);
    a := p[1..l];
    var last := p[l+1..];
    CutAt(p, l);
    var u;
    u, v := SplitMatch(a, last, mid);
    assert forall i :: 0 <= i < |a| ==> a[i] == DirPart(p)[i+1];
    LiteralMatch(a, u);
    NoSlashMatch(last, v);
  }

  lemma CutAt(p: string, l: nat)
    requires 0 < l < |p| && p[0] == '/' && p[l] == '/'
    ensures p[1..] == p[1..l] + ['/'] + p[l+1..] && p[..l+1] == ['/'] + p[1..l] + ['/']
  {
  }

  lemma ThroughDirectoriesText(p: string, d: string, pre: string, a: string, v: string)
    requires |a| + 2 <= |p| && p[..|a|+2] == ['/'] + a + ['/'] && p[1] != '/' && '/' !in v
    requires DirectoryPath(d) && (pre == "" || pre == "/") && |d| <= |pre + (a + ['/'] + v)|
    requires d == (pre + (a + ['/'] + v))[..|d|]
    ensures d <= p
  {
    var whole := pre + (a + ['/'] + v);
    assert whole[0] == '/' && a != "" && a[0] != '/';
    assert pre == "/";
    assert whole == (['/'] + a + ['/']) + v;
    forall k | |a| + 2 <= k < |whole| ensures whole[k] != '/' {
      assert whole[k] == v[k-(|a|+2)];
    }
    assert |d| <= |a| + 2;
    assert d == p[..|d|];
  }

  lemma StartsOnce(f: string, pre: string, mid: string, suf: string)
    requires NoDoubleSlash(f) && f == pre + mid + suf && (pre == "" || pre == "/") && mid != "" && mid[0] == '/'
    ensures pre == ""
  {
    assert f[|pre|] == mid[0] && f[0] == (pre + mid)[0];
  }

  /** One name after two slashes. */
  lemma AfterTwoSlashes(p: string, d: string, x: string, pre: string, mid: string, suf: string)
    requires "//" <= p && '/' !in p[2..] && RegexMatches(PlainTokens(p[1..]), mid)
    requires DirectoryPath(d) && NoDoubleSlash(d + x) && d + x == pre + mid + suf && (pre == "" || pre == "/")
    ensures |pre + mid| < |d|
  {
    var rest := p[2..];
    assert p[1..] == [] + ['/'] + rest;
    var u, v := SplitMatch([], rest, mid);
    NoSlashMatch(rest, v);
    assert u == "" && mid == ['/'] + v;
    StartsOnce(d + x, pre, mid, suf);
    forall i | 1 <= i < |mid| ensures mid[i] != '/' {
      assert mid[i] == v[i-1];
    }
    if |d| <= |mid| {
      PrefixOf(d, x, pre + mid, suf);
    }
  }

  lemma OneNameAndMore(p: string) returns (name: string, after: string)
    requires "//" <= p && '/' in p[2..]
    ensures p[1..] == ['/'] + name + ['/'] + after && '/' !in name && after == AfterName(p[2..])
  {
    var rest := p[2..];
    NameEnds(rest);
    name, after := rest[..FirstName(rest)], AfterName(rest);
    SplitText(rest, FirstName(rest));
    assert rest == name + ['/'] + after;
    SecondSlash(p, rest, name, after);
  }

  lemma SecondSlash(p: string, rest: string, name: string, after: string)
    requires "//" <= p && rest == p[2..] && rest == name + ['/'] + after
    ensures p[1..] == ['/'] + name + ['/'] + after
  {
    assert p[1..] == ['/'] + rest;
    assert ['/'] + (name + ['/'] + after) == ['/'] + name + ['/'] + after;
  }

  lemma SplitText(s: string, n: nat)
    requires n < |s| && s[n] == '/'
    ensures s == s[..n] + ['/'] + s[n+1..]
  {
  }

  lemma OnlyTheName(name: string, after: string, q: string, d: string, x: string, pre: string, mid: string, suf: string)
    returns (u: string)
    requires q == ['/'] + name + ['/'] + after && '/' !in name && '/' !in after && RegexMatches(PlainTokens(q), mid)
    requires DirectoryPath(d) && NoDoubleSlash(d + x) && d + x == pre + mid + suf && (pre == "" || pre == "/")
    requires |d| <= |pre + mid|
    ensures d == ['/'] + u + ['/'] && RegexMatches(PlainTokens(name), u)
  {
    var v;
    u, v := CutName(name, after, q, mid);
    StartsOnce(d + x, pre, mid, suf);
    PrefixOf(d, x, pre + mid, suf);
    assert pre + mid == mid;
    WholeName(d, u, v);
  }

  /** A name, with nothing or anything in it, after two slashes. */
  lemma NameAfterTwoSlashes(p: string, d: string, x: string, pre: string, mid: string, suf: string, tail: Tok)
    requires "//" <= p && '/' in p[2..] && (AfterName(p[2..]) == "" || AfterName(p[2..]) == "*")
    requires NegateRegex(p) == [OptSlash] + (PlainTokens(p[1..]) + [tail]) && (tail == Below || tail == AnyRest)
    requires RegexMatches(PlainTokens(p[1..]), mid)
    requires DirectoryPath(d) && NoDoubleSlash(d + x) && d + x == pre + mid + suf && (pre == "" || pre == "/")
    requires |d| <= |pre + mid|
    ensures RegexMatches(NegateRegex(p), d)
  {
    var name, after := OneNameAndMore(p);
    var u := OnlyTheName(name, after, p[1..], d, x, pre, mid, suf);
    JoinName(name, after, p[1..], u, d);
    TailTakesNothing(tail);
    JoinParts(PlainTokens(p[1..]), tail, "", d, "");
    assert "" + d + "" == d;
  }

  lemma CutName(name: string, after: string, q: string, mid: string) returns (u: string, v: string)
    requires q == ['/'] + name + ['/'] + after && '/' !in name && RegexMatches(PlainTokens(q), mid)
    ensures mid == ['/'] + u + ['/'] + v && '/' !in u && RegexMatches(PlainTokens(name), u)
    ensures RegexMatches(PlainTokens(after), v) && ('/' !in after ==> '/' !in v)
  {
    var a := ['/'] + name;
    assert a == [] + ['/'] + name;
    var w;
    w, v := SplitMatch(a, after, mid);
    var u0;
    u0, u := SplitMatch([], name, w);
    NoSlashMatch(name, u);
    if '/' !in after {
      NoSlashMatch(after, v);
    }
    assert u0 == "";
  }

  lemma JoinName(name: string, after: string, q: string, u: string, d: string)
    requires q == ['/'] + name + ['/'] + after && RegexMatches(PlainTokens(name), u) && d == ['/'] + u + ['/']
    requires after == "" || after == "*"
    ensures RegexMatches(PlainTokens(q), d)
  {
    var a, w := ['/'] + name, ['/'] + u;
    assert a == [] + ['/'] + name && w == [] + ['/'] + u;
    EmptyMatch(PlainTokens([]));
    JoinMatch([], name, [], u);
    MatchesNothing(after);
    JoinMatch(a, after, w, "");
    assert w + ['/'] + "" == d;
  }

  lemma MatchesNothing(after: string)
    requires after == "" || after == "*"
    ensures RegexMatches(PlainTokens(after), "")
  {
    if after == "*" {
      assert after[1..] == "" && PlainTokens(after) == [Star];
      MatchesSingle(Star, "");
    }
  }

  lemma WholeName(d: string, u: string, v: string)
    requires DirectoryPath(d) && '/' !in u && '/' !in v
    requires var mid := ['/'] + u + ['/'] + v; |d| <= |mid| && d == mid[..|d|]
    ensures d == ['/'] + u + ['/']
  {
    var mid := ['/'] + u + ['/'] + v;
    forall i | 1 <= i < |mid| && i != |u| + 1 ensures mid[i] != '/' {
      if i <= |u| {
        assert mid[i] == u[i-1];
      } else {
        assert mid[i] == v[i-|u|-2];
      }
    }
  }

  /** If a safe negated path matches something in a directory, it leads through that directory or matches it too. */
  lemma NegateReaches(p: string, d: string, x: string)
    requires SafeNegate(p)
    requires DirectoryPath(d) && NoDoubleSlash(d + x) && RegexMatches(NegateRegex(p), d + x)
    ensures d <= p || RegexMatches(NegateRegex(p), d)
  {
    var pre, mid, suf, tail := NegateCut(p, d + x);
    if !NoDoubleSlash(p[1..]) {
      DoubleSlashMatch(p[1..], mid);
      InTheMiddle(pre, mid, suf);
    } else if |pre + mid| < |d| {
      BySuffix(p, tail, pre, mid, suf, d, x);
    } else if !("//" <= p) {
      ThroughDirectories(p, d, x, pre, mid, suf);
    } else if '/' !in p[2..] {
      AfterTwoSlashes(p, d, x, pre, mid, suf);
    } else {
      NameAfterTwoSlashes(p, d, x, pre, mid, suf, tail);
    }
  }

  lemma InTheMiddle(pre: string, mid: string, suf: string)
    requires !NoDoubleSlash(mid)
    ensures !NoDoubleSlash(pre + mid + suf)
  {
    var i :| 0 < i < |mid| && mid[i] == '/' && mid[i-1] == '/';
    var f := pre + mid + suf;
    assert f[|pre|+i] == '/' && f[|pre|+i-1] == '/';
  }

  // ---------------------------------------------------------------------------------------------
  // The condition is exact: otherwise there is a path that is matched, below a directory that is not
  // ---------------------------------------------------------------------------------------------

  /** A path that matches: an arbitrary character for each star. */
  function Sample(t: string): string {
    if t == "" then ""
    else if StartsEscaped(t) then ['*'] + Sample(t[2..])
    else [if t[0] == '*' then 'x' else t[0]] + Sample(t[1..])
  }

  lemma {:induction false} SampleMatches(t: string)
    ensures RegexMatches(PlainTokens(t), Sample(t))
  {
    if t != "" {
      var n := if StartsEscaped(t) then 2 else 1;
      SampleMatches(t[n..]);
      var s := Sample(t);
      assert s[..1] == [s[0]] && s[1..] == Sample(t[n..]) && PlainTokens(t)[1..] == PlainTokens(t[n..]);
      assert TokMatches(PlainTokens(t)[0], s[..1]);
      assert MatchesAt(PlainTokens(t), s, 1);
    }
  }

  /** Slashes stay where they are. */
  lemma {:induction false} SampleEnds(t: string)
    ensures t == "" <==> Sample(t) == ""
    ensures t != "" ==> (t[0] == '/' <==> Sample(t)[0] == '/')
    ensures t != "" ==> (t[|t|-1] == '/' <==> Sample(t)[|Sample(t)|-1] == '/')
  {
    if t != "" {
      var n := if StartsEscaped(t) then 2 else 1;
      var rest := t[n..];
      SampleEnds(rest);
      if rest == "" {
        assert Sample(t) == [Sample(t)[0]];
      } else {
        assert rest[|rest|-1] == t[|t|-1];
        assert Sample(t) == [Sample(t)[0]] + Sample(rest);
      }
    }
  }

  lemma {:induction false} SampleKeepsSingle(t: string)
    requires NoDoubleSlash(t)
    ensures NoDoubleSlash(Sample(t))
  {
    if t != "" {
      var n := if StartsEscaped(t) then 2 else 1;
      var rest := t[n..];
      NoDoubleSlashAfter(t, n);
      SampleKeepsSingle(rest);
      SampleEnds(t);
      SampleEnds(rest);
      assert t[0] == '/' && rest != "" ==> rest[0] == t[1] != '/';
      PrependSingle(Sample(t)[0], Sample(rest));
      assert Sample(t) == [Sample(t)[0]] + Sample(rest);
    }
  }

  lemma PrependSingle(c: char, s: string)
    requires NoDoubleSlash(s) && (c == '/' && s != "" ==> s[0] != '/')
    ensures NoDoubleSlash([c] + s)
  {
    var t := [c] + s;
    forall i | 0 < i < |t| && t[i] == '/' ensures t[i-1] != '/' {
      assert t[i] == s[i-1] && (i > 1 ==> t[i-1] == s[i-2]);
    }
  }

  lemma {:induction false} SampleSplit(a: string, b: string)
    ensures Sample(a + ['/'] + b) == Sample(a) + ['/'] + Sample(b)
  {
    var t := a + ['/'] + b;
    if a == "" {
      assert t[1..] == b;
    } else {
      var n := if StartsEscaped(a) then 2 else 1;
      assert StartsEscaped(t) <==> StartsEscaped(a);
      assert t[n..] == a[n..] + ['/'] + b;
      SampleSplit(a[n..], b);
    }
  }

  /** With a star in it, the path differs from what stands for it. */
  lemma {:induction false} SampleDiffers(a: string, r: string)
    requires '*' in a
    ensures !(Sample(a) <= a + r)
  {
    assert a == [a[0]] + a[1..];
    if StartsEscaped(a) || a[0] == '*' {
      assert Sample(a)[0] != (a + r)[0];
    } else {
      SampleDiffers(a[1..], r);
      PrefixTail(Sample(a), a, r);
    }
  }

  lemma PrefixTail(s: string, a: string, r: string)
    requires s != "" && a != ""
    ensures s <= a + r ==> s[1..] <= a[1..] + r
  {
    if s <= a + r {
      assert (a + r)[1..] == a[1..] + r;
      assert s[1..] == (a + r)[1..][..|s|-1];
    }
  }

  /** A path that `p` un-ignores although it lies in a directory `d` that is not on the way of `p` and not matched. */
  ghost predicate Lost(p: string, d: string, f: string, isDir: bool) {
    && NamesPath(d) && NamesPath(f) && Above(d, f) && !(d + "/" <= p)
    && RegexMatches(NegateRegex(p), f + if isDir then "/" else "")
    && !RegexMatches(NegateRegex(p), d + "/")
  }

  /** What a sample of `a/rest` names, and the directory that `a` names. */
  lemma SamplePaths(a: string, rest: string) returns (d: string, f: string, isDir: bool, y: string)
    requires a != "" && rest != "" && NoDoubleSlash(['/'] + a + ['/'] + rest)
    ensures y == ['/'] + Sample(a) + ['/'] + Sample(rest) && d == ['/'] + Sample(a)
    ensures NamesPath(d) && NamesPath(f) && Above(d, f) && f + (if isDir then "/" else "") == y
  {
    var t := ['/'] + a + ['/'] + rest;
    SampleWhole(a, rest, t);
    SampleKeepsSingle(t);
    SampleEnds(a);
    SampleEnds(rest);
    DirectoryOf(t, a, rest);
    d, y := ['/'] + Sample(a), Sample(t);
    f, isDir := NamedBy(d, Sample(rest), y);
  }

  lemma SampleWhole(a: string, rest: string, t: string)
    requires t == ['/'] + a + ['/'] + rest
    ensures Sample(t) == ['/'] + Sample(a) + ['/'] + Sample(rest)
  {
    SlashedText(a, rest);
    SampleSplit([], a + ['/'] + rest);
    SampleSplit(a, rest);
    SlashedText(Sample(a), Sample(rest));
  }

  lemma SlashedText(a: string, b: string)
    ensures ['/'] + a + ['/'] + b == [] + ['/'] + (a + ['/'] + b)
  {
  }

  lemma NamedBy(d: string, r: string, y: string) returns (f: string, isDir: bool)
    requires |d| > 1 && d[0] == '/' && d[|d|-1] != '/' && r != "" && y == d + ['/'] + r && NoDoubleSlash(y)
    ensures NamesPath(d) && NamesPath(f) && Above(d, f) && f + (if isDir then "/" else "") == y
  {
    assert forall i :: 0 <= i < |d| ==> d[i] == y[i];
    assert y[|d|] == '/' && y[|d|+1] == r[0];
    assert y[|y|-1] == r[|r|-1];
    isDir := y[|y|-1] == '/';
    f := if isDir then y[..|y|-1] else y;
    assert y[..|d|] == d;
  }

  lemma DirectoryOf(t: string, a: string, rest: string)
    requires t == ['/'] + a + ['/'] + rest && a != "" && NoDoubleSlash(t)
    ensures NoDoubleSlash(a) && a[0] != '/' && a[|a|-1] != '/' && (rest != "" ==> rest[0] != '/')
  {
    assert forall i :: 0 <= i < |a| ==> t[i+1] == a[i];
    assert t[0] == '/' && t[1] == a[0] && t[|a|] == a[|a|-1] && t[|a|+1] == '/';
    assert rest != "" ==> t[|a|+2] == rest[0];
  }

  /** After two slashes a name, and more than anything in it. */
  lemma LostAfterTwoSlashes(p: string) returns (d: string, f: string, isDir: bool)
    requires "//" <= p && NoDoubleSlash(p[1..]) && !Contains(p, "**")
    requires '/' in p[2..] && AfterName(p[2..]) != "" && AfterName(p[2..]) != "*"
    ensures Lost(p, d, f, isDir)
  {
    var name, after := OneNameAndMore(p);
    var q := p[1..];
    assert q[0] == '/' && q[1] != '/';
    var y;
    d, f, isDir, y := SamplePaths(name, after);
    SampleWhole(name, after, q);
    SampleIsMatched(p, "");
    assert "" + y == y;
    assert (d + "/")[1] != '/' && p[1] == '/';
    SampleEnds(name);
    SampleMatches(name);
    NoSlashMatch(name, Sample(name));
    NameIsNotMatched(p, name, after, d);
  }

  lemma SampleIsMatched(p: string, pre: string)
    requires p != "" && p[0] == '/' && (pre == "" || pre == "/")
    ensures RegexMatches(NegateRegex(p), pre + Sample(p[1..]))
  {
    var tail := NegateShape(p);
    SampleMatches(p[1..]);
    TailTakesNothing(tail);
    JoinParts(PlainTokens(p[1..]), tail, pre, Sample(p[1..]), "");
    assert pre + Sample(p[1..]) + "" == pre + Sample(p[1..]);
  }

  lemma NameIsNotMatched(p: string, name: string, after: string, d: string)
    requires "//" <= p && !Contains(p, "**") && p[1..] == ['/'] + name + ['/'] + after && '/' !in name
    requires after != "" && after != "*" && NamesPath(d) && '/' !in d[1..]
    ensures !RegexMatches(NegateRegex(p), d + "/")
  {
    var f := d + "/";
    if RegexMatches(NegateRegex(p), f) {
      var pre, mid, suf, tail := NegateCut(p, f);
      var u, z := CutName(name, after, p[1..], mid);
      StartsOnce(f, pre, mid, suf);
      EndsAtSecondSlash(d, u, z, suf, f);
      ContainsInSuffix(p, after, "**");
      NotEmptyMatch(after);
    }
  }

  lemma EndsAtSecondSlash(d: string, u: string, z: string, suf: string, f: string)
    requires f == d + "/" && f == "" + (['/'] + u + ['/'] + z) + suf && d != "" && '/' !in d[1..]
    ensures z == ""
  {
    assert f[|u|+1] == '/';
    assert forall i :: 1 <= i < |d| ==> f[i] == d[1..][i-1];
    assert |u| + 1 == |d|;
  }

  lemma ContainsInSuffix(p: string, after: string, sub: string)
    requires |after| <= |p| && p[|p|-|after|..] == after && !Contains(p, sub)
    ensures !Contains(after, sub)
  {
    forall i | 0 <= i <= |after| ensures !(sub <= after[i..]) {
      assert after[i..] == p[|p|-|after|+i..];
    }
  }

  lemma NullableStars(t: string)
    requires |t| >= 2 && AllNullable(PlainTokens(t))
    ensures "**" <= t
  {
    var ts := PlainTokens(t);
    assert ts[0] in ts;
    assert t[0] == '*' && ts[1..] == PlainTokens(t[1..]);
    assert ts[1] == PlainTokens(t[1..])[0] && ts[1] in ts;
  }

  lemma NotEmptyMatch(after: string)
    requires after != "" && after != "*" && !Contains(after, "**")
    ensures !RegexMatches(PlainTokens(after), "")
  {
    EmptyMatch(PlainTokens(after));
    assert after[0..] == after;
    if |after| >= 2 {
      if AllNullable(PlainTokens(after)) {
        NullableStars(after);
      }
    } else {
      assert PlainTokens(after) == [Lit(after[0])] && Lit(after[0]) in PlainTokens(after);
    }
  }

  /** Stars in the directories, of which path.Dir keeps none. */
  lemma LostThroughStars(p: string) returns (d: string, f: string, isDir: bool)
    requires p != "" && p[0] == '/' && !("//" <= p) && NoDoubleSlash(p[1..]) && '*' in DirPart(p)
    requires !Contains(p, "**") && !Contains(Dir(p), "*")
    ensures Lost(p, d, f, isDir)
  {
    var a, rest := CutAfterStar(p);
    assert NoDoubleSlash(p);
    var y;
    d, f, isDir, y := SamplePaths(a, rest);
    SampleWhole(a, rest, p);
    SampleIsMatched(p, "/");
    assert "/" + Sample(p[1..]) == Sample(p);
    StarDirectoryNotOnTheWay(p, a, rest, d);
    StarDirectoryIsNotMatched(p, a, rest, d);
  }

  lemma StarDirectoryNotOnTheWay(p: string, a: string, rest: string, d: string)
    requires p == ['/'] + a + ['/'] + rest && '*' in a && d == ['/'] + Sample(a)
    ensures !(d + "/" <= p)
  {
    SampleDiffers(a, ['/'] + rest);
    assert p == ['/'] + (a + (['/'] + rest)) && d + "/" == ['/'] + (Sample(a) + "/");
    PrefixWithin(Sample(a), "/", a + (['/'] + rest));
  }

  lemma PrefixWithin(s: string, e: string, t: string)
    ensures ['/'] + (s + e) <= ['/'] + t ==> s <= t
  {
    if ['/'] + (s + e) <= ['/'] + t {
      assert s == (['/'] + (s + e))[1..|s|+1];
      assert t == (['/'] + t)[1..];
    }
  }

  /** Up to the first slash after a star, and the rest; in which there is another slash. */
  lemma CutAfterStar(p: string) returns (a: string, rest: string)
    requires p != "" && p[0] == '/' && NoDoubleSlash(p) && '*' in DirPart(p) && !Contains(Dir(p), "*")
    ensures p == ['/'] + a + ['/'] + rest && '*' in a && '/' in rest
    ensures a[0] == '*' ==> '/' !in a
  {
    var i := FirstStar(p);
    var j := i + FirstName(p[i..]);
    NameEndsBefore(p, i);
    a, rest := p[1..j], p[j+1..];
    CutAround(p, i, j);
    if '/' !in p[j+1..] {
      StarInLastDirectory(p, i, j);
    }
  }

  lemma CutAround(p: string, i: nat, j: nat)
    requires 0 < i <= j < |p| && j - i == FirstName(p[i..]) && p[0] == '/' && p[i] == '*' && '*' !in p[..i]
    ensures i < j && p[j] == '/' && '/' !in p[i..j]
    ensures var a := p[1..j]; p == ['/'] + a + ['/'] + p[j+1..] && '*' in a && (a[0] == '*' ==> '/' !in a)
  {
    var a := p[1..j];
    assert p[i..][j-i] == p[j] && p[i..][0] == p[i];
    assert p[i..][..j-i] == p[i..j] && p[i..j] == a[i-1..];
    assert a[i-1] == '*' && a[0] == p[1];
    assert i > 1 ==> p[..i][1] == p[1] && p[..i][1] in p[..i];
    assert a[0..] == a;
  }

  lemma FirstStar(p: string) returns (i: nat)
    requires p != "" && p[0] == '/' && '*' in DirPart(p)
    ensures 0 < i < LastSlash(p) && p[i] == '*' && '*' !in p[..i]
  {
    i := 0;
    while p[i] != '*'
      invariant i < LastSlash(p) && '*' !in p[..i] && '*' in DirPart(p)[i..]
      decreases LastSlash(p) - i
    {
      assert DirPart(p)[i..] == [p[i]] + DirPart(p)[i+1..] && p[..i+1] == p[..i] + [p[i]];
      i := i + 1;
    }
  }

  lemma NameEndsBefore(p: string, i: nat)
    requires '/' in p && i < LastSlash(p)
    ensures i + FirstName(p[i..]) < |p|
  {
    assert p[i..][LastSlash(p)-i] == '/';
    NameEnds(p[i..]);
  }

  lemma {:induction false} SplitAtSlash(a: string, b: string)
    ensures Split(a + ['/'] + b) == Split(a) + Split(b)
  {
    var t := a + ['/'] + b;
    if a == "" {
      assert t[1..] == b;
    } else {
      assert t[1..] == a[1..] + ['/'] + b;
      SplitAtSlash(a[1..], b);
    }
  }

  lemma {:induction false} SplitPlain(e: string)
    requires '/' !in e
    ensures Split(e) == [e]
  {
    if e != "" {
      assert e == [e[0]] + e[1..];
      SplitPlain(e[1..]);
    }
  }

  lemma {:induction false} StarInJoin(xs: seq<string>, s: string)
    requires '*' in s
    ensures '*' in Join(xs + [s])
  {
    if xs != [] {
      assert (xs + [s])[1..] == xs[1..] + [s];
      StarInJoin(xs[1..], s);
    }
  }

  /** path.Dir keeps a last directory with a star in it. */
  lemma StarInDir(p: string, b: string, s: string, last: string)
    requires p == b + ['/'] + s + ['/'] + last && '/' !in s && '/' !in last && '*' in s
    ensures Contains(Dir(p), "*")
  {
    SplitAtSlash(b + ['/'] + s, last);
    SplitAtSlash(b, s);
    SplitPlain(s);
    SplitPlain(last);
    var segs := Split(b) + [s];
    assert Split(p) == segs + [last];
    assert Split(p)[..|Split(p)|-1] == segs && segs[..|segs|-1] == Split(b);
    StarInJoin(CleanSegments(Split(b)), s);
    StarContained(Dir(p));
  }

  lemma StarContained(s: string)
    ensures '*' in s <==> Contains(s, "*")
  {
    if i :| 0 <= i < |s| && s[i] == '*' {
      assert "*" <= s[i..];
    }
    if i :| 0 <= i <= |s| && "*" <= s[i..] {
      assert s[i..][0] == s[i];
    }
  }

  lemma StarInLastDirectory(p: string, i: nat, j: nat)
    requires p != "" && p[0] == '/' && 0 < i <= j < |p| && p[i] == '*' && p[j] == '/'
    requires '/' !in p[i..j] && '/' !in p[j+1..]
    ensures Contains(Dir(p), "*")
  {
    assert p[..i][0] == '/';
    var l := LastSlash(p[..i]);
    var s := p[l+1..j];
    assert p[..i][l] == p[l] && p[..i][l+1..] == p[l+1..i];
    NoSlashIn(p, l + 1, i, j);
    assert s[i-l-1] == '*';
    SplitText(p, j);
    SplitText(p[..j], l);
    assert p[..j][..l] == p[..l] && p[..j][l+1..] == s;
    StarInDir(p, p[..l], s, p[j+1..]);
  }

  lemma NoSlashIn(p: string, l: nat, i: nat, j: nat)
    requires l <= i <= j <= |p| && '/' !in p[l..i] && '/' !in p[i..j]
    ensures '/' !in p[l..j]
  {
    assert p[l..j] == p[l..i] + p[i..j];
  }

  /** Of a star's directory and one more, path.Dir keeps none only if the second is the parent. */
  lemma StarThenParent(p: string, u: string, v: string)
    requires p == ['/'] + ['*'] + ['/'] + (u + ['/'] + v) && '/' !in u && '/' !in v && !Contains(Dir(p), "*")
    ensures u == ".."
  {
    var segs := ["", "*", u];
    ThreeSegments(p, u, v);
    assert Split(p)[..3] == segs;
    CleanStarAndMore(segs, u);
    if u != ".." {
      assert Join(CleanSegments(segs))[0] == '*';
      assert Dir(p)[1] == '*';
      StarContained(Dir(p));
    }
  }

  lemma ThreeSegments(p: string, u: string, v: string)
    requires p == ['/'] + ['*'] + ['/'] + (u + ['/'] + v) && '/' !in u && '/' !in v
    ensures Split(p) == ["", "*", u, v]
  {
    var b := [] + ['/'] + ['*'];
    assert p == b + ['/'] + (u + ['/'] + v);
    SplitAtSlash(b, u + ['/'] + v);
    SplitAtSlash(u, v);
    SplitAtSlash([], ['*']);
    SplitPlain(['*']);
    SplitPlain(u);
    SplitPlain(v);
  }

  lemma CleanStarAndMore(segs: seq<string>, u: string)
    requires segs == ["", "*", u]
    ensures CleanSegments(segs) == if u == "" || u == "." then ["*"] else if u == ".." then [] else ["*", u]
  {
    assert segs[..2] == ["", "*"] && segs[..2][..1] == [""] && [""][..0] == [];
    assert CleanSegments([""]) == [];
    assert CleanSegments(segs[..2]) == ["*"];
  }

  /** A match of something that starts with neither star nor slash does not start with a slash, and is not empty. */
  lemma StartsPlain(a: string, s: string)
    requires a != "" && a[0] != '*' && a[0] != '/' && RegexMatches(PlainTokens(a), s)
    ensures s != "" && s[0] != '/'
  {
    var k, n := TakenByFirst(a, s);
    assert s[..k] != "" && s[..k][0] == s[0];
  }

  /** The slashes tell how a match of the directory would have to be cut. */
  lemma SlashesTell(p: string, a: string, rest: string, f: string, pre: string, mid: string, suf: string)
    requires p == ['/'] + a + ['/'] + rest && '/' in rest && RegexMatches(PlainTokens(p[1..]), mid)
    requires f == ['/'] + Sample(a) + ['/'] && f == pre + mid + suf && (pre == "" || pre == "/")
    ensures Slashes(rest) == 1 && f == mid + suf
  {
    assert p[1..] == a + ['/'] + rest;
    SlashesMatch(p[1..], mid);
    SlashesAround(a, rest);
    SampledSlashes(a, f);
    SlashesConcat(pre + mid, suf);
    SlashesConcat(pre, mid);
    SlashesIn(rest);
    SlashesIn(pre);
    assert pre == "" ==> pre + mid == mid;
  }

  lemma SampledSlashes(a: string, f: string)
    requires f == ['/'] + Sample(a) + ['/']
    ensures Slashes(f) == Slashes(a) + 2
  {
    SampleMatches(a);
    SlashesMatch(a, Sample(a));
    SlashesBetween(Sample(a));
  }

  lemma SlashesBetween(a: string)
    ensures Slashes(['/'] + a + ['/']) == Slashes(a) + 2
  {
    SlashesConcat(['/'] + a, ['/']);
    SlashesConcat(['/'], a);
    OneSlash();
  }

  lemma OneSlash()
    ensures Slashes(['/']) == 1
  {
    assert ['/'][1..] == "";
  }

  lemma StarDirectoryIsNotMatched(p: string, a: string, rest: string, d: string)
    requires p == ['/'] + a + ['/'] + rest && '*' in a && '/' in rest && (a[0] == '*' ==> '/' !in a)
    requires NoDoubleSlash(p) && !Contains(p, "**") && !Contains(Dir(p), "*") && d == ['/'] + Sample(a)
    ensures !RegexMatches(NegateRegex(p), d + "/")
  {
    var f := d + "/";
    if RegexMatches(NegateRegex(p), f) {
      var pre, mid, suf, tail := NegateCut(p, f);
      SlashesTell(p, a, rest, f, pre, mid, suf);
      StarMatchIsCut(p, a, rest, f, mid, suf);
    }
  }

  lemma StarMatchIsCut(p: string, a: string, rest: string, f: string, mid: string, suf: string)
    requires p == ['/'] + a + ['/'] + rest && '*' in a && (a[0] == '*' ==> '/' !in a)
    requires NoDoubleSlash(p) && !Contains(p, "**") && !Contains(Dir(p), "*") && f == ['/'] + Sample(a) + ['/']
    requires Slashes(rest) == 1 && RegexMatches(PlainTokens(p[1..]), mid)
    ensures f != mid + suf
  {
    assert p[1..] == a + ['/'] + rest;
    var y, z := SplitMatch(a, rest, mid);
    if a[0] != '*' {
      DirectoryOf(p, a, rest);
      StartsPlain(a, y);
      assert (y + ['/'] + z + suf)[0] == y[0];
    } else {
      NoSlashMatch(a, y);
      StarNotDoubled(p, a, rest);
      StarAloneIsCut(p, a, rest, f, y, z, suf);
    }
  }

  lemma StarNotDoubled(p: string, a: string, rest: string)
    requires p == ['/'] + a + ['/'] + rest && !Contains(p, "**")
    ensures !Contains(a, "**")
  {
    assert p == ['/'] + a + (['/'] + rest);
    ContainsWithin(['/'], a, ['/'] + rest, p, "**");
  }

  lemma StarAloneIsCut(p: string, a: string, rest: string, f: string, y: string, z: string, suf: string)
    requires p == ['/'] + a + ['/'] + rest && a != "" && '/' !in y && !Contains(a, "**") && !Contains(Dir(p), "*")
    requires RegexMatches(PlainTokens(a), y) && RegexMatches(PlainTokens(rest), z) && Slashes(rest) == 1
    requires f == ['/'] + Sample(a) + ['/']
    ensures f != y + ['/'] + z + suf
  {
    if y == "" {
      OnlyAStar(a, y);
      StarDirectoryOnly(p, rest, z, suf);
      assert y + ['/'] + z + suf == [] + ['/'] + z + suf;
    } else {
      assert (y + ['/'] + z + suf)[0] == y[0] && y[0] in y;
    }
  }

  lemma ContainsWithin(b: string, a: string, c: string, p: string, sub: string)
    requires p == b + a + c
    ensures Contains(a, sub) ==> Contains(p, sub)
  {
    if i :| 0 <= i <= |a| && sub <= a[i..] {
      assert p[|b|+i..] == a[i..] + c;
      assert sub <= p[|b|+i..];
    }
  }

  lemma OnlyAStar(a: string, y: string)
    requires a != "" && !Contains(a, "**") && y == "" && RegexMatches(PlainTokens(a), y)
    ensures a == "*" && Sample(a) == "x"
  {
    if a != "*" {
      NotEmptyMatch(a);
    }
    assert a[1..] == "";
  }

  lemma StarDirectoryOnly(p: string, rest: string, z: string, suf: string)
    requires p == ['/'] + ['*'] + ['/'] + rest && Slashes(rest) == 1 && !Contains(Dir(p), "*")
    requires RegexMatches(PlainTokens(rest), z)
    ensures [] + ['/'] + z + suf != ['/'] + "x" + ['/']
  {
    SlashesIn(rest);
    NameEnds(rest);
    var u, v := rest[..FirstName(rest)], AfterName(rest);
    assert rest == u + ['/'] + v;
    SlashesConcat(u + ['/'], v);
    SlashesConcat(u, ['/']);
    assert Slashes(['/']) == 1;
    SlashesIn(v);
    StarThenParent(p, u, v);
    var zu, zv := SplitMatch(u, v, z);
    LiteralMatch(u, zu);
    assert ([] + ['/'] + z + suf)[1] == z[0] == '.' && (['/'] + "x" + ['/'])[1] == 'x';
  }

  /** If the condition fails, something is lost. */
  lemma UnsafeLoses(p: string) returns (d: string, f: string, isDir: bool)
    requires p != "" && p[0] == '/' && !SafeNegate(p) && !Contains(p, "**") && !Contains(Dir(p), "*")
    ensures Lost(p, d, f, isDir)
  {
    if "//" <= p {
      d, f, isDir := LostAfterTwoSlashes(p);
    } else {
      d, f, isDir := LostThroughStars(p);
    }
  }
}
