/** What an exclusion rule matches, segment by segment. */
module IgnoreLaws {
  import opened Basics
  import opened Glob
  import opened Ignore
  import PathUtil
  import PathLaws

  lemma {:induction false} SplitAtSlash(a: string, b: string)
    ensures PathUtil.Split(a + "/" + b) == PathUtil.Split(a) + PathUtil.Split(b)
    decreases |a|
  {
    var s := a + "/" + b;
    if a == [] {
      assert s[1..] == b;
    } else {
      assert s[1..] == a[1..] + "/" + b;
      SplitAtSlash(a[1..], b);
      assert s[0] == a[0];
      Grown(a[0], PathUtil.Split(a[1..]), PathUtil.Split(b));
    }
  }

  /** Growing the first piece, or starting a new one, does not depend on what comes later. */
  lemma Grown(c: char, segs: seq<string>, more: seq<string>)
    requires segs != []
    ensures [[]] + (segs + more) == [[]] + segs + more
    ensures [[c] + (segs + more)[0]] + (segs + more)[1..] == [[c] + segs[0]] + segs[1..] + more
  {
    assert (segs + more)[1..] == segs[1..] + more;
  }

  lemma {:induction false} JoinOfSplit(s: string)
    ensures PathUtil.Join(PathUtil.Split(s)) == s
    decreases |s|
  {
    if s != [] {
      JoinOfSplit(s[1..]);
      var rest := PathUtil.Split(s[1..]);
      if s[0] == '/' {
        assert ([[]] + rest)[1..] == rest;
      } else {
        assert ([[s[0]] + rest[0]] + rest[1..])[1..] == rest[1..];
      }
    }
  }

  lemma {:induction false} JoinApart(a: seq<string>, b: seq<string>)
    requires a != [] && b != []
    ensures PathUtil.Join(a + b) == PathUtil.Join(a) + "/" + PathUtil.Join(b)
    decreases |a|
  {
    assert (a + b)[1..] == a[1..] + b;
    if |a| == 1 {
      assert a[1..] + b == b;
    } else {
      JoinApart(a[1..], b);
      assert a[0] + "/" + (PathUtil.Join(a[1..]) + "/" + PathUtil.Join(b))
             == a[0] + "/" + PathUtil.Join(a[1..]) + "/" + PathUtil.Join(b);
    }
  }

  /** The first `n` segments of a path: the whole path, or a directory above it. */
  function FirstSegments(path: string, n: nat): string
    requires n <= |PathUtil.Split(path)|
  {
    PathUtil.Join(PathUtil.Split(path)[..n])
  }

  /** What stands before a slash is a number of first segments, and the last of them is its base name. */
  lemma BeforeSlash(path: string, i: nat) returns (n: nat)
    requires i < |path| && path[i] == '/'
    ensures 1 <= n < |PathUtil.Split(path)| && path[..i] == FirstSegments(path, n)
    ensures BaseName(path[..i]) == PathUtil.Split(path)[n - 1]
  {
    var a, b := path[..i], path[i + 1..];
    assert path == a + "/" + b;
    SplitAtSlash(a, b);
    JoinOfSplit(a);
    n := |PathUtil.Split(a)|;
    assert PathUtil.Split(path)[..n] == PathUtil.Split(a);
    LastIsBase(a);
  }

  lemma LastIsBase(path: string)
    ensures BaseName(path) == PathUtil.Split(path)[|PathUtil.Split(path)| - 1]
  {
    hide PathUtil.Split;
    var segs := PathUtil.Split(path);
    JoinOfSplit(path);
    PathLaws.PiecesAreFlat(path);
    forall seg <- segs
      ensures PathLaws.Flat(seg)
    {
      var k :| 0 <= k < |segs| && segs[k] == seg;
      assert forall i :: 0 <= i < |segs[k]| ==> segs[k][i] != '/';
    }
    PathLaws.BaseOfJoin(segs);
  }

  /** And the first segments, fewer than all, stand before a slash. */
  lemma EndsAtSlash(path: string, n: nat) returns (i: nat)
    requires 1 <= n < |PathUtil.Split(path)|
    ensures i < |path| && path[i] == '/' && path[..i] == FirstSegments(path, n)
  {
    var segs := PathUtil.Split(path);
    JoinOfSplit(path);
    assert segs == segs[..n] + segs[n..];
    JoinApart(segs[..n], segs[n..]);
    i := |FirstSegments(path, n)|;
  }

  /** A rule counts for the first `n` segments of a path unless it is for directories and they are a file. */
  predicate Counts(r: Rule, path: string, isDir: bool, n: nat) {
    n < |PathUtil.Split(path)| || isDir || !r.dirOnly
  }

  /** A rule without a slash, and not anchored, matches exactly the paths with a segment that its pattern fits; any
      other rule exactly the paths with first segments that it fits. For a directory rule the whole path has to be a
      directory to count itself. */
  lemma RulesMatchSegments(r: Rule, path: string, isDir: bool)
    ensures var segs := PathUtil.Split(path);
            RuleMatches(r, path, isDir)
            <==> exists n :: 1 <= n <= |segs| && Counts(r, path, isDir, n)
                       && GlobAnswer(r.pattern, if !r.anchored && '/' !in r.pattern then segs[n - 1]
                                                else FirstSegments(path, n))
  {
    hide GlobAnswer, PathUtil.Split, PathUtil.Join, BaseName;
    var segs := PathUtil.Split(path);
    JoinOfSplit(path);
    LastIsBase(path);
    assert segs[..|segs|] == segs;
    if RuleMatches(r, path, isDir) {
      if Hits(r, path) && (r.dirOnly ==> isDir) {
        assert Counts(r, path, isDir, |segs|);
      } else {
        var i :| 0 <= i < |path| && path[i] == '/' && Hits(r, path[..i]);
        var n := BeforeSlash(path, i);
        assert Counts(r, path, isDir, n);
      }
    }
    if n :| 1 <= n <= |segs| && Counts(r, path, isDir, n)
            && GlobAnswer(r.pattern, if !r.anchored && '/' !in r.pattern then segs[n - 1] else FirstSegments(path, n)) {
      if n < |segs| {
        var i := EndsAtSlash(path, n);
        LastIsBase(path[..i]);
        PathLaws.PiecesAreFlat(path);
        FirstBase(path, n);
        assert Hits(r, path[..i]);
      }
    }
  }

  lemma FirstBase(path: string, n: nat)
    requires 1 <= n <= |PathUtil.Split(path)|
    ensures BaseName(FirstSegments(path, n)) == PathUtil.Split(path)[n - 1]
  {
    hide PathUtil.Split, PathUtil.Join, BaseName;
    var segs := PathUtil.Split(path);
    PathLaws.PiecesAreFlat(path);
    forall seg <- segs[..n]
      ensures PathLaws.Flat(seg)
    {
      var k :| 0 <= k < |segs| && segs[k] == seg;
      assert forall i :: 0 <= i < |segs[k]| ==> segs[k][i] != '/';
    }
    PathLaws.BaseOfJoin(segs[..n]);
  }

  /** The same character, but for the case of an ASCII letter or the slant of a slash. */
  predicate Alike(c: char, d: char) {
    || c == d || (c in {'/', '\\'} && d in {'/', '\\'})
    || ('A' <= c <= 'Z' && d as int == c as int + 32) || ('A' <= d <= 'Z' && c as int == d as int + 32)
  }

  /** Paths are taken as the same exactly when they are alike character by character; and then every list of rules
      decides the same for both. */
  lemma SpellingDoesNotMatter(rules: seq<Rule>, a: string, b: string, isDir: bool, i: nat)
    ensures Normal(a) == Normal(b) <==> |a| == |b| && forall k :: 0 <= k < |a| ==> Alike(a[k], b[k])
    ensures |a| == |b| && (forall k :: 0 <= k < |a| ==> Alike(a[k], b[k])) ==>
              (Decides(rules, Normal(a), isDir, i) <==> Decides(rules, Normal(b), isDir, i))
  {
    hide Decides;
    if Normal(a) == Normal(b) {
      forall k | 0 <= k < |a|
        ensures Alike(a[k], b[k])
      {
        assert Normal(a)[k] == Normal(b)[k];
      }
    }
  }
}
