/** Slash-separated paths, handled as the plain strings that the sources pass around. */
module Paths {

  /** `p` is a proper ancestor of `s`; the sources write this as HasPrefix(s, p + "/"). */
  predicate Above(p: string, s: string) {
    |p| < |s| && s[..|p|] == p && s[|p|] == '/'
  }

  /** `s` is `p` itself or lies below it. */
  predicate Covers(p: string, s: string) {
    p == s || Above(p, s)
  }

  /** Nothing lies between the directory and the path. */
  predicate DirectChild(path: string, child: string) {
    Above(path, child) && '/' !in child[|path|+1..]
  }

  predicate NoDoubleSlash(s: string) {
    forall i :: 0 < i < |s| && s[i] == '/' ==> s[i-1] != '/'
  }

  /** A path made of names: a slash before each, and none at the end. */
  predicate NamesPath(r: string) {
    |r| > 1 && r[0] == '/' && r[|r|-1] != '/' && NoDoubleSlash(r)
  }

  lemma AboveIsSlashPrefix(p: string, s: string)
    ensures p + "/" <= s <==> Above(p, s)
  {
    if p + "/" <= s {
      assert (p + "/")[|p|] == '/';
      assert s[..|p|] == p;
    }
  }

  lemma AboveTransitive(a: string, b: string, c: string)
    requires Covers(a, b) && Covers(b, c)
    ensures Covers(a, c)
    ensures Above(a, b) || Above(b, c) ==> Above(a, c)
  {
    if Above(a, b) && Above(b, c) {
      assert c[..|a|] == c[..|b|][..|a|];
    }
  }

  /** Two paths covering a third one are comparable. */
  lemma CoversComparable(a: string, b: string, c: string)
    requires Covers(a, c) && Covers(b, c)
    ensures Covers(a, b) || Covers(b, a)
  {
    if |a| <= |b| {
      assert b == c[..|b|];
      assert b[..|a|] == c[..|a|] == a;
    } else {
      assert a == c[..|a|];
      assert a[..|b|] == c[..|b|] == b;
    }
  }

  /** strings.Split, at slashes unless another character is given. */
  function Split(s: string, at: char := '/'): (parts: seq<string>)
    ensures |parts| >= 1
    ensures forall i :: 0 <= i < |parts| ==> at !in parts[i]
  {
    if s == "" then [""]
    else
      var rest := Split(s[1..], at);
      if s[0] == at then [""] + rest else [[s[0]] + rest[0]] + rest[1..]
  }

  /** strings.Join */
  function Join(parts: seq<string>, between: char := '/'): string {
    if parts == [] then ""
    else if |parts| == 1 then parts[0]
    else parts[0] + [between] + Join(parts[1..], between)
  }

  lemma {:induction false} JoinSplit(s: string, c: char)
    ensures Join(Split(s, c), c) == s
  {
    if s != "" {
      JoinSplit(s[1..], c);
      var rest := Split(s[1..], c);
      if s[0] == c {
        assert Split(s, c)[1..] == rest;
      } else if |rest| > 1 {
        assert Split(s, c)[1..] == rest[1..];
      }
    }
  }

  lemma {:induction false} SplitNothing(s: string, c: char)
    requires c !in s
    ensures Split(s, c) == [s]
  {
    if s != "" {
      assert s == [s[0]] + s[1..];
      SplitNothing(s[1..], c);
    }
  }

  lemma {:induction false} SplitConcat(a: string, c: char, b: string)
    requires c !in a
    ensures Split(a + [c] + b, c) == [a] + Split(b, c)
  {
    if a == "" {
      assert (a + [c] + b)[1..] == b;
    } else {
      assert a == [a[0]] + a[1..] && (a + [c] + b)[1..] == a[1..] + [c] + b;
      SplitConcat(a[1..], c, b);
    }
  }

  lemma {:induction false} SplitApart(a: string, c: char, b: string)
    ensures Split(a + [c] + b, c) == Split(a, c) + Split(b, c)
  {
    if a == "" {
      assert (a + [c] + b)[1..] == b;
    } else {
      assert (a + [c] + b)[1..] == a[1..] + [c] + b;
      SplitApart(a[1..], c, b);
    }
  }

  /** Parts without the separator are found again. */
  lemma {:induction false} SplitJoin(parts: seq<string>, c: char)
    requires parts != [] && forall i :: 0 <= i < |parts| ==> c !in parts[i]
    ensures Split(Join(parts, c), c) == parts
  {
    if |parts| == 1 {
      SplitNothing(parts[0], c);
    } else {
      SplitJoin(parts[1..], c);
      SplitConcat(parts[0], c, Join(parts[1..], c));
      assert parts == [parts[0]] + parts[1..];
    }
  }

  /** Joining a proper, non-empty part of the segments gives an ancestor. */
  lemma {:induction false} JoinedPrefixIsAbove(s: string, i: nat)
    requires 1 <= i < |Split(s)|
    ensures Above(Join(Split(s)[..i]), s)
  {
    var parts, rest := Split(s), Split(s[1..]);
    if s[0] == '/' {
      assert parts[..i] == [""] + rest[..i-1];
      if i > 1 {
        JoinedPrefixIsAbove(s[1..], i - 1);
        assert parts[..i][1..] == rest[..i-1];
      }
    } else {
      JoinedPrefixIsAbove(s[1..], i);
      var p := Join(rest[..i]);
      assert Join(parts[..i]) == [s[0]] + p by {
        if i > 1 { assert parts[..i][1..] == rest[..i][1..]; }
      }
      assert s == [s[0]] + s[1..];
    }
  }

  /** Every ancestor is obtained by joining some proper, non-empty part of the segments. */
  lemma {:induction false} AboveIsJoinedPrefix(p: string, s: string) returns (i: nat)
    requires Above(p, s)
    ensures 1 <= i < |Split(s)| && p == Join(Split(s)[..i])
  {
    var parts, rest := Split(s), Split(s[1..]);
    if p == "" {
      i := 1;
    } else {
      i := AboveIsJoinedPrefix(p[1..], s[1..]);
      assert p[0] == s[0];
      if s[0] == '/' {
        assert parts[..i+1] == [""] + rest[..i];
        assert parts[..i+1][1..] == rest[..i];
        i := i + 1;
      } else if i > 1 {
        assert parts[..i][1..] == rest[..i][1..];
      }
    }
  }

  /** strings.TrimSuffix(s, "/") */
  function TrimSlash(s: string): string {
    if s != "" && s[|s|-1] == '/' then s[..|s|-1] else s
  }

  /** The part of `s` up to the next slash after its ancestor `p`: the direct child of `p` that covers `s`. */
  function ChildToward(p: string, s: string): (c: string)
    requires Above(p, s)
    ensures Above(p, c) && Covers(c, s) && '/' !in c[|p|+1..]
  {
    ChildTowardFrom(p, s, |p| + 1)
  }

  function ChildTowardFrom(p: string, s: string, i: nat): (c: string)
    requires Above(p, s) && |p| < i <= |s| && '/' !in s[|p|+1..i]
    ensures Above(p, c) && Covers(c, s) && '/' !in c[|p|+1..]
    decreases |s| - i
  {
    if i == |s| || s[i] == '/' then
      assert s[..i][|p|+1..] == s[|p|+1..i];
      s[..i]
    else
      assert s[|p|+1..i+1] == s[|p|+1..i] + [s[i]];
      ChildTowardFrom(p, s, i + 1)
  }

  /** Nothing lies strictly between a path and its direct child. */
  lemma NothingBetween(p: string, q: string, child: string)
    requires Above(p, child) && '/' !in child[|p|+1..]
    requires Above(p, q)
    ensures !Above(q, child)
  {
    if |q| < |child| {
      assert child[|q|] == child[|p|+1..][|q|-|p|-1];
    }
  }

  /** The position of the last slash. */
  function LastSlash(p: string): (i: nat)
    requires '/' in p
    ensures i < |p| && p[i] == '/' && '/' !in p[i+1..]
  {
    if p[|p|-1] == '/' then |p| - 1
    else
      var i := LastSlash(p[..|p|-1]);
      assert p[i+1..] == p[..|p|-1][i+1..] + [p[|p|-1]];
      i
  }

  lemma {:induction false} JoinLast(parts: seq<string>, last: string, c: char)
    requires parts != []
    ensures Join(parts + [last], c) == Join(parts, c) + [c] + last
  {
    if |parts| > 1 {
      JoinLast(parts[1..], last, c);
      assert (parts + [last])[1..] == parts[1..] + [last];
      assert parts[0] + [c] + (Join(parts[1..], c) + [c] + last) == parts[0] + [c] + Join(parts[1..], c) + [c] + last;
    } else {
      assert (parts + [last])[1..] == [last];
    }
  }
}
