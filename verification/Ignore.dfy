/** Exclusion rules over paths: which rule matches a path, and what a list of rules decides. */
module Ignore {
  import opened Basics
  import opened Glob

  datatype Rule = Rule(pattern: string, negate: bool, dirOnly: bool, anchored: bool)

  // ---- one rule ----

  predicate Hits(r: Rule, path: string) {
    GlobAnswer(r.pattern, if r.anchored || '/' in r.pattern then path else BaseName(path))
  }

  /** The path itself or a directory above it is hit; only directories count for a directory rule. */
  ghost predicate RuleMatches(r: Rule, path: string, isDir: bool) {
    || (Hits(r, path) && (r.dirOnly ==> isDir))
    || exists i :: 0 <= i < |path| && path[i] == '/' && Hits(r, path[..i])
  }

  method LastSegment(path: string) returns (name: string)
    ensures name == BaseName(path)
  {
    var i := |path|;
    assert path[..i] == path;
    while i > 0 && path[i - 1] != '/'
      invariant 0 <= i <= |path|
      invariant BaseName(path) == BaseName(path[..i]) + path[i..]
    {
      assert path[..i][..i - 1] == path[..i - 1] && path[i - 1..] == [path[i - 1]] + path[i..];
      i := i - 1;
    }
    return path[i..];
  }

  method MatchRule(r: Rule, relPath: string, isDir: bool) returns (matched: bool)
    ensures matched <==> RuleMatches(r, relPath, isDir)
  {
    var candidates := Candidates(relPath);
    var k := 0;
    while k < |candidates|
      invariant 0 <= k <= |candidates|
      invariant forall j :: 0 <= j < k ==> !Hits(r, candidates[j]) || (r.dirOnly && !isDir && candidates[j] == relPath)
    {
      var cand := candidates[k];
      assert cand in candidates;
      var candIsDir := cand != relPath || isDir;
      if !r.dirOnly || candIsDir {
        var text := cand;
        if !r.anchored && '/' !in r.pattern {
          text := LastSegment(cand);
        }
        var hit := GlobMatch(r.pattern, text);
        if hit {
          return true;
        }
      }
      k := k + 1;
    }
    return false;
  }

  /** The path and every directory above it. */
  method Candidates(relPath: string) returns (candidates: seq<string>)
    ensures forall c <- candidates ::
              c == relPath || exists i :: 0 <= i < |relPath| && relPath[i] == '/' && c == relPath[..i]
    ensures relPath in candidates
    ensures forall i :: 0 <= i < |relPath| && relPath[i] == '/' ==> relPath[..i] in candidates
  {
    candidates := [relPath];
    var pos := 0;
    while pos < |relPath|
      invariant 0 <= pos <= |relPath|
      invariant forall c <- candidates ::
                  c == relPath || exists i :: 0 <= i < |relPath| && relPath[i] == '/' && c == relPath[..i]
      invariant relPath in candidates
      invariant forall i :: 0 <= i < pos && relPath[i] == '/' ==> relPath[..i] in candidates
    {
      if relPath[pos] == '/' {
        candidates := candidates + [relPath[..pos]];
      }
      pos := pos + 1;
    }
  }

  /** A rule that matches a directory matches everything below it, whether or not it is for directories only. */
  lemma DirectoryRulesReachDown(r: Rule, dir: string, below: string, isDir: bool)
    requires RuleMatches(r, dir, true)
    ensures RuleMatches(r, dir + "/" + below, isDir)
  {
    var path := dir + "/" + below;
    if Hits(r, dir) {
      assert path[|dir|] == '/' && path[..|dir|] == dir;
    } else {
      var i :| 0 <= i < |dir| && dir[i] == '/' && Hits(r, dir[..i]);
      assert path[i] == '/' && path[..i] == dir[..i];
    }
  }

  // ---- a list of rules ----

  /** Paths are compared in lower case and with forward slashes. */
  function Normal(path: string): (n: string)
    ensures |n| == |path|
    ensures forall i :: 0 <= i < |path| ==> n[i] == if path[i] == '\\' then '/' else Lower(path[i])
  {
    seq(|path|, i requires 0 <= i < |path| => if path[i] == '\\' then '/' else Lower(path[i]))
  }

  /** The last rule that matches decides. */
  ghost predicate Decides(rules: seq<Rule>, path: string, isDir: bool, i: nat) {
    && i < |rules| && RuleMatches(rules[i], path, isDir)
    && forall j :: i < j < |rules| ==> !RuleMatches(rules[j], path, isDir)
  }

  /** A path is ignored exactly when the last rule to match it exists and is not a negated one. */
  method Ignored(rules: seq<Rule>, relPath: string, isDir: bool) returns (result: bool)
    ensures result <==> exists i: nat :: Decides(rules, Normal(relPath), isDir, i) && !rules[i].negate
    ensures forall i: nat :: Decides(rules, Normal(relPath), isDir, i) ==> result == !rules[i].negate
  {
    var p := Normal(relPath);
    result := false;
    ghost var last := -1;
    var k := 0;
    while k < |rules|
      invariant 0 <= k <= |rules| && -1 <= last < k
      invariant last >= 0 ==> RuleMatches(rules[last], p, isDir) && result == !rules[last].negate
      invariant last < 0 ==> !result
      invariant forall j :: last < j < k ==> !RuleMatches(rules[j], p, isDir)
    {
      var matched := MatchRule(rules[k], p, isDir);
      if matched {
        result := !rules[k].negate;
        last := k;
      }
      k := k + 1;
    }
    if last >= 0 {
      assert Decides(rules, p, isDir, last);
      forall i: nat | Decides(rules, p, isDir, i)
        ensures i == last
      {
        OneDecides(rules, p, isDir, i, last);
      }
    }
  }

  /** Two rules cannot both be the last to match. */
  lemma OneDecides(rules: seq<Rule>, path: string, isDir: bool, i: nat, j: nat)
    requires Decides(rules, path, isDir, i) && Decides(rules, path, isDir, j)
    ensures i == j
  {
  }
}
