/** Which compiled lines match a directory at all, told from their tokens. */
module MatchedDirectories {
  import opened IgnoreParser
  import opened IgnorePruning
  import opened Paths
  import opened RegexMatching

  /** Optional tokens that cannot take up a name by themselves. */
  predicate Empty(ts: seq<Tok>) {
    AllNullable(ts) && !Absorbs(ts)
  }

  /** Two slashes are required with nothing in between that could keep them apart. */
  predicate SlashesMeetAt(ts: seq<Tok>, i: nat, j: nat) {
    i < j < |ts| && EndsWithSlash(ts[i]) && EndsWithSlash(ts[j]) && Empty(ts[i+1..j])
  }

  /** One slash is all that is required, and no token takes up names before or after it. */
  predicate BareSlashAt(ts: seq<Tok>, i: nat) {
    && i < |ts| && ts[i] == Lit('/')
    && Empty(ts[..i]) && Below !in ts[..i]
    && Empty(ts[i+1..]) && AnyDirs !in ts[i+1..]
  }

  ghost predicate MatchesNoDirectory(ts: seq<Tok>) {
    (exists i, j :: SlashesMeetAt(ts, i, j)) || (exists i :: BareSlashAt(ts, i))
  }

  // ---------------------------------------------------------------------------------------------
  // Such lines match no directory
  // ---------------------------------------------------------------------------------------------

  lemma DoubleInside(a: string, m: string, b: string)
    requires !NoDoubleSlash(m)
    ensures !NoDoubleSlash(a + m + b)
  {
    var i :| 0 < i < |m| && m[i] == '/' && m[i-1] == '/';
    var s := a + m + b;
    assert s[|a|+i] == '/' && s[|a|+i-1] == '/';
  }

  /** Such tokens between two slashes leave a double slash. */
  lemma EmptyBetween(ts: seq<Tok>, m: string)
    requires Empty(ts) && RegexMatches(ts, m)
    ensures !NoDoubleSlash(['/'] + m + ['/'])
  {
    var s := ['/'] + m + ['/'];
    if m == "" {
      assert s[1] == '/' && s[0] == '/';
    } else if m[|m|-1] == '/' {
      assert s[|m|+1] == '/' && s[|m|] == '/';
    } else {
      NameNeedsSlash(ts, m);
      if m[0] == '/' {
        assert s[1] == '/' && s[0] == '/';
      } else {
        DoubleInside(['/'], m, ['/']);
      }
    }
  }

  lemma SlashText(t: Tok, u: string)
    requires EndsWithSlash(t) && TokMatches(t, u)
    ensures u != "" && u[0] == '/' && u[|u|-1] == '/'
  {
  }

  lemma DoubleAcross(u: string, v: string, m: string, v': string, w: string)
    requires v != "" && v[|v|-1] == '/' && v' != "" && v'[0] == '/' && !NoDoubleSlash(['/'] + m + ['/'])
    ensures !NoDoubleSlash(u + v + (m + v' + w))
  {
    var a, b := u + v[..|v|-1], v'[1..] + w;
    DoubleInside(a, ['/'] + m + ['/'], b);
    assert v == v[..|v|-1] + ['/'] && v' == ['/'] + v'[1..];
    assert u + v + (m + v' + w) == a + (['/'] + m + ['/']) + b;
  }

  lemma SlashesMeet(ts: seq<Tok>, i: nat, j: nat, s: string)
    requires SlashesMeetAt(ts, i, j) && RegexMatches(ts, s)
    ensures !NoDoubleSlash(s)
  {
    var u, v, r := CutToken(ts, i, s);
    var rest, l := ts[i+1..], j - i - 1;
    assert rest[l] == ts[j] && rest[..l] == ts[i+1..j];
    var m, v', w := CutToken(rest, l, r);
    SlashText(ts[i], v);
    SlashText(ts[j], v');
    EmptyBetween(rest[..l], m);
    DoubleAcross(u, v, m, v', w);
  }

  /** Without a `Below`, nothing but whole directories. */
  lemma {:induction false} EmptyBefore(ts: seq<Tok>, u: string)
    requires Empty(ts) && Below !in ts && RegexMatches(ts, u)
    ensures u == "" || u[|u|-1] == '/'
  {
    if ts != [] {
      var k := FirstMatch(ts, u);
      assert ts[0] in ts && ts == [ts[0]] + ts[1..];
      EmptyBefore(ts[1..], u[k..]);
      assert k == |u| ==> u[..k] == u;
    }
  }

  lemma BareSlash(ts: seq<Tok>, i: nat, s: string)
    requires BareSlashAt(ts, i) && RegexMatches(ts, s)
    ensures !DirectoryPath(s)
  {
    var u, v, w := CutToken(ts, i, s);
    EmptyBefore(ts[..i], u);
    TakesFromSlash(ts[i+1..], w);
    assert v == ['/'];
    if u != "" {
      assert s[|u|-1] == '/' && s[|u|] == '/';
    }
    if w != "" {
      assert s[|u|] == '/' && s[|u|+1] == '/';
    }
  }

  lemma NoDirectoryMatched(ts: seq<Tok>, d: string)
    requires MatchesNoDirectory(ts) && RegexMatches(ts, d)
    ensures !DirectoryPath(d)
  {
    if i, j :| SlashesMeetAt(ts, i, j) {
      SlashesMeet(ts, i, j, d);
    } else {
      var i :| BareSlashAt(ts, i);
      BareSlash(ts, i, d);
    }
  }

  // ---------------------------------------------------------------------------------------------
  // All others match some directory
  // ---------------------------------------------------------------------------------------------

  /** The least that a token takes, with a name where names are taken up. */
  function Text(t: Tok): string {
    match t
    case Lit(c) => [c]
    case EscapedStar => ['*']
    case Between => ['/']
    case Star => ['a']
    case AnyRest => ['a']
    case _ => ""
  }

  function Word(ts: seq<Tok>): string {
    if ts == [] then "" else Text(ts[0]) + Word(ts[1..])
  }

  lemma {:induction false} WordMatches(ts: seq<Tok>)
    ensures RegexMatches(ts, Word(ts))
  {
    if ts != [] {
      WordMatches(ts[1..]);
      MatchesSingle(ts[0], Text(ts[0]));
      ConcatMatches([ts[0]], ts[1..], Text(ts[0]), Word(ts[1..]));
      assert ts == [ts[0]] + ts[1..];
    }
  }

  lemma EmptyMore(t: Tok, ts: seq<Tok>)
    ensures Empty([t] + ts) <==> Nullable(t) && t != Star && t != AnyRest && Empty(ts)
  {
    assert t in [t] + ts;
    assert forall x :: x in [t] + ts <==> x == t || x in ts;
  }

  lemma {:induction false} NoWord(ts: seq<Tok>)
    ensures Word(ts) == "" <==> Empty(ts)
  {
    if ts != [] {
      NoWord(ts[1..]);
      EmptyMore(ts[0], ts[1..]);
      assert ts == [ts[0]] + ts[1..];
    }
  }

  /** A word that begins with a slash has it from a required one. */
  lemma {:induction false} LeadingSlash(ts: seq<Tok>) returns (j: nat)
    requires Word(ts) != "" && Word(ts)[0] == '/'
    ensures j < |ts| && EndsWithSlash(ts[j]) && Empty(ts[..j])
  {
    if Text(ts[0]) != "" {
      j := 0;
    } else {
      var l := LeadingSlash(ts[1..]);
      j := l + 1;
      EmptyMore(ts[0], ts[1..][..j-1]);
      assert ts[..j] == [ts[0]] + ts[1..][..j-1];
    }
  }

  lemma {:induction false} DoubleMeets(ts: seq<Tok>) returns (i: nat, j: nat)
    requires !NoDoubleSlash(Word(ts))
    ensures SlashesMeetAt(ts, i, j)
  {
    var first, rest := Text(ts[0]), Word(ts[1..]);
    if NoDoubleSlash(rest) {
      assert first == ['/'] && rest != "" && rest[0] == '/';
      var l := LeadingSlash(ts[1..]);
      i, j := 0, l + 1;
      assert ts[1..j] == ts[1..][..l];
    } else {
      i, j := DoubleMeets(ts[1..]);
      assert ts[1..][i+1..j] == ts[i+2..j+1];
      i, j := i + 1, j + 1;
    }
  }

  lemma EmptyShift(ts: seq<Tok>, l: nat)
    requires ts != [] && l < |ts| - 1 && Text(ts[0]) == "" && Empty(ts[1..][..l]) && Empty(ts[1..][l+1..])
    ensures Empty(ts[..l+1]) && Empty(ts[l+2..])
  {
    EmptyMore(ts[0], ts[1..][..l]);
    assert ts[..l+1] == [ts[0]] + ts[1..][..l] && ts[1..][l+1..] == ts[l+2..];
  }

  lemma {:induction false} SlashOnly(ts: seq<Tok>) returns (i: nat)
    requires Word(ts) == ['/']
    ensures i < |ts| && EndsWithSlash(ts[i]) && Empty(ts[..i]) && Empty(ts[i+1..])
  {
    var rest := Word(ts[1..]);
    if Text(ts[0]) == "" {
      var l := SlashOnly(ts[1..]);
      EmptyShift(ts, l);
      i := l + 1;
    } else {
      assert Text(ts[0])[0] == Word(ts)[0];
      assert rest == "";
      NoWord(ts[1..]);
      i := 0;
    }
  }

  /** How a compiled line begins and ends. */
  predicate Compiled(ts: seq<Tok>) {
    |ts| >= 2 && (ts[0] == OptSlash || ts[0] == AnyDirs) && (ts[|ts|-1] == Below || ts[|ts|-1] == AnyRest)
  }

  lemma Framed(ts: seq<Tok>, a: string, b: string, c: string)
    requires Compiled(ts) && (a == "" || a == ['/']) && RegexMatches(ts[1..|ts|-1], b)
    requires TokMatches(ts[|ts|-1], c)
    ensures RegexMatches(ts, a + b + c)
  {
    var mid, last := ts[1..|ts|-1], ts[|ts|-1];
    MatchesSingle(ts[0], a);
    MatchesSingle(last, c);
    ConcatMatches([ts[0]], mid, a, b);
    ConcatMatches([ts[0]] + mid, [last], a + b, c);
    assert ts == [ts[0]] + mid + [last];
  }

  lemma Completed(w: string, a: string, c: string)
    requires NoDoubleSlash(w) && w != "" && w != ['/']
    requires a == (if w[0] == '/' then "" else ['/']) && c == (if w[|w|-1] == '/' then "" else ['/'])
    ensures DirectoryPath(a + w + c)
  {
  }

  lemma CompletedByName(w: string, a: string)
    requires NoDoubleSlash(w) && a == if w != "" && w[0] == '/' then "" else ['/']
    ensures DirectoryPath(a + w + ['a', '/'])
  {
  }

  lemma MeetInside(ts: seq<Tok>, i: nat, j: nat)
    requires |ts| >= 2 && SlashesMeetAt(ts[1..|ts|-1], i, j)
    ensures SlashesMeetAt(ts, i + 1, j + 1)
  {
    var mid := ts[1..|ts|-1];
    assert forall k :: 0 <= k < |mid| ==> mid[k] == ts[k+1];
    assert mid[i+1..j] == ts[i+2..j+1];
  }

  /** A lone slash, and a name before or after it. */
  lemma NameBesideSlash(ts: seq<Tok>, i: nat)
    requires i < |ts| && EndsWithSlash(ts[i]) && Empty(ts[..i]) && Empty(ts[i+1..]) && !BareSlashAt(ts, i)
    ensures RegexMatches(ts, "/a/")
  {
    var x, y := ts[..i], ts[i+1..];
    EmptyMatch(x);
    EmptyMatch(y);
    if ts[i] == Between {
      JoinAroundToken(ts, i, "", "/a/", "");
      assert "" + "/a/" + "" == "/a/";
    } else if Below in x {
      BelowTakesAll(x, "/a");
      JoinAroundToken(ts, i, "/a", "/", "");
      assert "/a" + "/" + "" == "/a/";
    } else {
      AnyDirsTakes(y, "a/");
      JoinAroundToken(ts, i, "", "/", "a/");
      assert "" + "/" + "a/" == "/a/";
    }
  }

  lemma EmptyThenBelow(ts: seq<Tok>)
    requires Empty(ts)
    ensures Empty(ts + [Below])
  {
  }

  lemma SlashInFrame(ts: seq<Tok>, l: nat)
    requires Compiled(ts) && ts[|ts|-1] == Below && l < |ts| - 2
    requires var mid := ts[1..|ts|-1]; EndsWithSlash(mid[l]) && Empty(mid[..l]) && Empty(mid[l+1..])
    ensures EndsWithSlash(ts[l+1]) && Empty(ts[..l+1]) && Empty(ts[l+2..])
  {
    var mid := ts[1..|ts|-1];
    assert ts[..l+1] == [ts[0]] + mid[..l] && ts[l+2..] == mid[l+1..] + [Below];
    EmptyMore(ts[0], mid[..l]);
    EmptyThenBelow(mid[l+1..]);
  }

  lemma WordFits(ts: seq<Tok>) returns (w: string)
    requires |ts| >= 2 && !MatchesNoDirectory(ts)
    ensures w == Word(ts[1..|ts|-1]) && NoDoubleSlash(w) && RegexMatches(ts[1..|ts|-1], w)
  {
    w := Word(ts[1..|ts|-1]);
    WordMatches(ts[1..|ts|-1]);
    if !NoDoubleSlash(w) {
      var i, j := DoubleMeets(ts[1..|ts|-1]);
      MeetInside(ts, i, j);
      assert false;
    }
  }

  lemma BesideSlash(ts: seq<Tok>)
    requires Compiled(ts) && ts[|ts|-1] == Below && !MatchesNoDirectory(ts) && Word(ts[1..|ts|-1]) == ['/']
    ensures RegexMatches(ts, "/a/")
  {
    var l := SlashOnly(ts[1..|ts|-1]);
    SlashInFrame(ts, l);
    assert !BareSlashAt(ts, l + 1);
    NameBesideSlash(ts, l + 1);
  }

  lemma SomeDirectoryMatched(ts: seq<Tok>) returns (d: string)
    requires Compiled(ts) && !MatchesNoDirectory(ts)
    ensures DirectoryPath(d) && RegexMatches(ts, d)
  {
    var w := WordFits(ts);
    var a := if w != "" && w[0] == '/' then "" else ['/'];
    if ts[|ts|-1] == AnyRest {
      CompletedByName(w, a);
      Framed(ts, a, w, ['a', '/']);
      d := a + w + ['a', '/'];
    } else if w == "" {
      Framed(ts, "", w, "/a/");
      d := "" + w + "/a/";
    } else if w == ['/'] {
      BesideSlash(ts);
      d := "/a/";
    } else {
      var c := if w[|w|-1] == '/' then "" else ['/'];
      Completed(w, a, c);
      Framed(ts, a, w, c);
      d := a + w + c;
    }
  }

  /** Main result: a compiled line matches no directory if and only if its tokens force two slashes to meet, or nothing but
      one slash. */
  lemma DirectoryMatchedExactly(ts: seq<Tok>)
    requires Compiled(ts)
    ensures MatchesNoDirectory(ts) <==> forall d :: DirectoryPath(d) ==> !RegexMatches(ts, d)
  {
    if MatchesNoDirectory(ts) {
      forall d | DirectoryPath(d) ensures !RegexMatches(ts, d) {
        if RegexMatches(ts, d) {
          NoDirectoryMatched(ts, d);
        }
      }
    } else {
      var d := SomeDirectoryMatched(ts);
    }
  }
}
