/** Exclude lines: how they are compiled, how a path is matched against them, and why an ignored
    directory may be skipped together with everything in it. */
module IgnoreParser {
  import opened Paths
  import opened Wrappers

  // ---------------------------------------------------------------------------------------------
  // The regular expressions that exclude lines are translated to
  // ---------------------------------------------------------------------------------------------

  datatype Tok =
    | Lit(c: char)
    | EscapedStar // \*
    | Star        // ([^/]*)
    | Between     // (/|/.+/)
    | AnyDirs     // (|.*/)
    | Below       // (|/.*)
    | OptSlash    // (|/)
    | AnyRest     // (|.*)

  predicate TokMatches(t: Tok, u: string) {
    match t
    case Lit(c) => u == [c]
    case EscapedStar => u == "*"
    case Star => '/' !in u
    case Between => u == "/" || (|u| >= 3 && u[0] == '/' && u[|u|-1] == '/')
    case AnyDirs => u == "" || u[|u|-1] == '/'
    case Below => u == "" || u[0] == '/'
    case OptSlash => u == "" || u == "/"
    case AnyRest => true
  }

  predicate RegexMatches(ts: seq<Tok>, s: string)
    decreases |ts|, 1
  {
    if ts == [] then s == "" else exists k | 0 <= k <= |s| :: MatchesAt(ts, s, k)
  }

  /** The first token takes `k` characters, the others the rest. */
  predicate MatchesAt(ts: seq<Tok>, s: string, k: nat)
    requires ts != [] && k <= |s|
    decreases |ts|, 0
  {
    TokMatches(ts[0], s[..k]) && RegexMatches(ts[1..], s[k..])
  }

  function Lits(s: string): (ts: seq<Tok>)
    ensures |ts| == |s| && forall i :: 0 <= i < |s| ==> ts[i] == Lit(s[i])
  {
    seq(|s|, i requires 0 <= i < |s| => Lit(s[i]))
  }

  /** regexp.ReplaceAllString for a literal pattern: leftmost, non-overlapping. */
  function ReplaceAll(ts: seq<Tok>, pat: seq<Tok>, tok: Tok): seq<Tok>
    requires pat != []
    decreases |ts|
  {
    if |ts| < |pat| then ts
    else if ts[..|pat|] == pat then [tok] + ReplaceAll(ts[|pat|..], pat, tok)
    else [ts[0]] + ReplaceAll(ts[1..], pat, tok)
  }

  function Stars(ts: seq<Tok>): (r: seq<Tok>)
    ensures |r| == |ts|
    ensures forall i :: 0 <= i < |ts| ==> r[i] == if ts[i] == Lit('*') then Star else ts[i]
  {
    seq(|ts|, i requires 0 <= i < |ts| => if ts[i] == Lit('*') then Star else ts[i])
  }

  /** The wildcards of a line, in the order in which the passes over the text replace them. */
  function Tokens(line: string): seq<Tok> {
    var l := if "/**/" <= line then line[1..] else line;
    var t0 := ReplaceAll(Lits(l), Lits("/**/"), Between);
    var t1 := ReplaceAll(t0, Lits("**/"), AnyDirs);
    var t2 := ReplaceAll(t1, Lits("/**"), Below);
    Stars(ReplaceAll(t2, Lits("\\*"), EscapedStar))
  }

  function Anchor(t: seq<Tok>): (ts: seq<Tok>)
    ensures |ts| >= 2 && (ts[|ts|-1] == Below || ts[|ts|-1] == AnyRest)
  {
    var tail := if t != [] && t[|t|-1] == Lit('/') then AnyRest else Below;
    if t != [] && t[0] == Lit('/') then [OptSlash] + t[1..] + [tail] else [AnyDirs] + t + [tail]
  }

  function TrimLeft(s: string, c: char): string {
    if s != "" && s[0] == c then TrimLeft(s[1..], c) else s
  }

  function TrimRight(s: string, c: char): (r: string)
    ensures r <= s && (r != "" ==> r[|r|-1] != c)
  {
    if s != "" && s[|s|-1] == c then TrimRight(s[..|s|-1], c) else s
  }

  function Trim(s: string, c: char): string {
    TrimRight(TrimLeft(s, c), c)
  }

  /** `([^\/+])/.*\*\.` matches somewhere in the line. */
  predicate FolderGlob(l: string) {
    exists i, j | 0 <= i && i + 2 <= j < |l| - 1 ::
      l[i] != '/' && l[i] != '+' && l[i+1] == '/' && l[j] == '*' && l[j+1] == '.'
  }

  datatype Pattern = Pattern(regex: seq<Tok>, negate: bool)

  function PatternFromLine(line: string): Option<Pattern> {
    var l := TrimRight(line, '\r');
    if "#" <= l then None else PatternFromTrimmed(Trim(l, ' '))
  }

  function PatternFromTrimmed(l: string): Option<Pattern> {
    if l == "" then None
    else
      var negate := l[0] == '!';
      var l1 := if negate then l[1..] else l;
      var l2 := if "#" <= l1 || "!" <= l1 then l1[1..] else l1;
      var l3 := if FolderGlob(l2) && l2[0] != '/' then "/" + l2 else l2;
      Some(Pattern(Anchor(Tokens(l3)), negate))
  }

  function Patterns(lines: seq<string>): seq<Pattern> {
    if lines == [] then []
    else
      var rest := Patterns(lines[..|lines|-1]);
      match PatternFromLine(lines[|lines|-1])
      case None => rest
      case Some(p) => rest + [p]
  }

  /** The last line that matches decides. */
  predicate MatchesPath(ps: seq<Pattern>, f: string) {
    if ps == [] then false
    else
      var last := ps[|ps|-1];
      if RegexMatches(last.regex, f) then !last.negate else MatchesPath(ps[..|ps|-1], f)
  }

  // ---------------------------------------------------------------------------------------------
  // The parser built from the lines
  // ---------------------------------------------------------------------------------------------

  /** path.Clean on the segments of a rooted path. */
  function CleanSegments(segs: seq<string>): seq<string> {
    if segs == [] then []
    else
      var rest := CleanSegments(segs[..|segs|-1]);
      var last := segs[|segs|-1];
      if last == "" || last == "." then rest
      else if last == ".." then (if rest == [] then [] else rest[..|rest|-1])
      else rest + [last]
  }

  /** path.Dir for a path that starts with a slash. */
  function Dir(p: string): string {
    var parts := Split(p);
    "/" + Join(CleanSegments(parts[..|parts|-1]))
  }

  predicate Contains(s: string, sub: string) {
    exists i | 0 <= i <= |s| :: sub <= s[i..]
  }

  datatype LineKind = Plain | Anchored(path: string) | Unscoped

  /** How a line affects whether subtrees may be skipped. */
  function Classify(raw: string): LineKind {
    var line := Trim(raw, ' ');
    if line == "" || line[0] != '!' then Plain
    else if |line| > 1 && line[1] == '/' && !Contains(line[1..], "**") && !Contains(Dir(line[1..]), "*") then
      Anchored(line[1..])
    else Unscoped
  }

  function AbsoluteNegates(lines: seq<string>): seq<string> {
    if lines == [] then []
    else
      var rest := AbsoluteNegates(lines[..|lines|-1]);
      match Classify(lines[|lines|-1])
      case Anchored(p) => rest + [p]
      case _ => rest
  }

  datatype Parser = Parser(patterns: seq<Pattern>, absoluteNegatePatterns: seq<string>, requireFullScan: bool) {

    predicate Matches(relativePath: string, isDir: bool) {
      var p := Normalise(relativePath, isDir);
      if isDir && exists n | n in absoluteNegatePatterns :: p <= n then false
      else MatchesPath(patterns, p)
    }
  }

  function Normalise(relativePath: string, isDir: bool): string {
    var p := TrimRight(relativePath, '/') + if isDir then "/" else "";
    if "./" <= p then p[1..]
    else if !("/" <= p) then "/" + p
    else p
  }

  predicate AnyUnscoped(lines: seq<string>) {
    exists line :: line in lines && Classify(line).Unscoped?
  }

  lemma OneMoreLine(lines: seq<string>, i: nat)
    requires i < |lines|
    ensures AnyUnscoped(lines[..i+1]) <==> AnyUnscoped(lines[..i]) || Classify(lines[i]).Unscoped?
    ensures AbsoluteNegates(lines[..i+1]) ==
            if Classify(lines[i]).Anchored? then AbsoluteNegates(lines[..i]) + [Classify(lines[i]).path] else AbsoluteNegates(lines[..i])
  {
    assert lines[..i+1] == lines[..i] + [lines[i]];
  }

  /** What is compiled from the lines. */
  function ParserOf(lines: seq<string>): Parser {
    Parser(Patterns(lines), AbsoluteNegates(lines), AnyUnscoped(lines))
  }

  /** A negating line that is not scoped to the base, or has wildcards that may stand for directories. */
  ghost predicate NeedsFullScan(raw: string) {
    var line := Trim(raw, ' ');
    && line != "" && line[0] == '!'
    && (|line| == 1 || line[1] != '/' || Contains(line[1..], "**") || Contains(Dir(line[1..]), "*"))
  }

  /** What the parser knows of its negating lines. */
  ghost predicate KnowsNegates(p: Parser, lines: seq<string>) {
    && (p.requireFullScan <==> exists line :: line in lines && NeedsFullScan(line))
    && forall n :: n in p.absoluteNegatePatterns <==> exists line :: line in lines && Keeps(line, n)
  }

  ghost predicate Keeps(raw: string, path: string) {
    !NeedsFullScan(raw) && Trim(raw, ' ') == "!" + path
  }

  lemma {:induction false} NegatesKept(lines: seq<string>, n: string)
    ensures n in AbsoluteNegates(lines) <==> exists line :: line in lines && Keeps(line, n)
  {
    if lines != [] {
      var rest, last := lines[..|lines|-1], lines[|lines|-1];
      assert lines == rest + [last];
      NegatesKept(rest, n);
      assert Keeps(last, n) <==> Classify(last) == Anchored(n);
    }
  }

  lemma ParserKnowsNegates(lines: seq<string>)
    ensures KnowsNegates(ParserOf(lines), lines)
  {
    forall line ensures NeedsFullScan(line) <==> Classify(line).Unscoped? {
    }
    forall n ensures n in AbsoluteNegates(lines) <==> exists line :: line in lines && Keeps(line, n) {
      NegatesKept(lines, n);
    }
  }

  /** Compiles the exclude lines; no lines, no parser. */
  method CompilePaths(excludePaths: seq<string>) returns (r: Option<Parser>)
    ensures r == if excludePaths == [] then None else Some(ParserOf(excludePaths))
    ensures r.Some? ==> KnowsNegates(r.value, excludePaths)
  {
    if |excludePaths| == 0 {
      return None;
    }
    var requireFullScan := false;
    var absoluteNegatePatterns: seq<string> := [];
    for i := 0 to |excludePaths|
      invariant absoluteNegatePatterns == AbsoluteNegates(excludePaths[..i])
      invariant requireFullScan <==> AnyUnscoped(excludePaths[..i])
    {
      OneMoreLine(excludePaths, i);
      var line := Trim(excludePaths[i], ' ');
      if line == "" {
      } else if line[0] == '!' {
        if |line| > 1 && line[1] == '/' {
          var p := line[1..];
          if !Contains(p, "**") && !Contains(Dir(p), "*") {
            absoluteNegatePatterns := absoluteNegatePatterns + [p];
          } else {
            requireFullScan := true;
          }
        } else {
          requireFullScan := true;
        }
      }
    }
    assert excludePaths[..|excludePaths|] == excludePaths;
    ParserKnowsNegates(excludePaths);
    r := Some(Parser(Patterns(excludePaths), absoluteNegatePatterns, requireFullScan));
  }
}
