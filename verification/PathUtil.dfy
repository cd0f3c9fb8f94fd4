/** Relative paths: resolving segments without leaving the root, and joining below a root. */
module PathUtil {
  import opened Basics

  const MAX_PATH: nat := 4096

  // ---- segments ----

  /** The pieces between slashes; there is one more of them than there are slashes. */
  function Split(s: string): (r: seq<string>)
    ensures |r| >= 1
    decreases |s|
  {
    if s == [] then [[]]
    else
      var rest := Split(s[1..]);
      if s[0] == '/' then [[]] + rest else [[s[0]] + rest[0]] + rest[1..]
  }

  function Join(segs: seq<string>): string
    decreases |segs|
  {
    if segs == [] then [] else if |segs| == 1 then segs[0] else segs[0] + "/" + Join(segs[1..])
  }

  predicate Skipped(seg: string) { seg == [] || seg == "." }

  predicate Up(seg: string) { seg == ".." }

  /** A segment that names something. */
  predicate Name(seg: string) { !Skipped(seg) && !Up(seg) }

  /** Walks the segments from the directory `stack`; a ".." at the root fails. */
  function Resolve(segs: seq<string>, stack: seq<string>): Option<seq<string>>
    decreases |segs|
  {
    if segs == [] then Some(stack)
    else if Skipped(segs[0]) then Resolve(segs[1..], stack)
    else if Up(segs[0]) then
      if stack == [] then None else Resolve(segs[1..], stack[..|stack| - 1])
    else Resolve(segs[1..], stack + [segs[0]])
  }

  // ---- what Windows does not allow ----

  const ILLEGAL: string := "<>:\"|?*"

  predicate IllegalChar(c: char) { c < ' ' || c in ILLEGAL }

  /** An illegal character anywhere, or a last segment that ends in a dot or a space. */
  predicate HasIllegalChars(path: string) {
    || (exists i :: 0 <= i < |path| && IllegalChar(path[i]))
    || (var base := BaseName(path); base != [] && (base[|base| - 1] == '.' || base[|base| - 1] == ' '))
  }

  const RESERVED: set<string> :=
    {"con", "prn", "aux", "nul", "com1", "com2", "com3", "com4", "com5", "com6", "com7", "com8", "com9",
     "lpt1", "lpt2", "lpt3", "lpt4", "lpt5", "lpt6", "lpt7", "lpt8", "lpt9"}

  function LowerAll(s: string): (r: string)
    ensures |r| == |s|
    ensures forall i :: 0 <= i < |s| ==> r[i] == Lower(s[i])
  {
    seq(|s|, i requires 0 <= i < |s| => Lower(s[i]))
  }

  function BeforeDot(s: string): string
    decreases |s|
  {
    if s == [] || s[0] == '.' then [] else [s[0]] + BeforeDot(s[1..])
  }

  /** Some segment, up to its first dot and in lower case, is a device name. */
  predicate HasReservedName(path: string) {
    exists i :: 0 <= i < |Split(path)| && BeforeDot(LowerAll(Split(path)[i])) in RESERVED
  }

  // ---- normalizing ----

  function Slashed(s: string): string
    decreases |s|
  {
    if s == [] then [] else [if s[0] == '\\' then '/' else s[0]] + Slashed(s[1..])
  }

  /** An absolute path, a drive, or a path with a NUL. */
  predicate Refused(s: string) {
    s == [] || s[0] == '/' || (|s| > 1 && s[1] == ':') || '\0' in s
  }

  function Normalize(path: string): Option<string> {
    var s := Slashed(path);
    if |path| > MAX_PATH || Refused(s) then None
    else
      var segs := Resolve(Split(s), []);
      if segs.None? || segs.value == [] then None
      else
        var out := Join(segs.value);
        if HasIllegalChars(out) || HasReservedName(out) then None else Some(out)
  }

  /** Reads one segment and steps over the slash that ends it. */
  method ReadSegment(s: string, pos: nat) returns (seg: string, next: nat)
    requires pos < |s|
    ensures pos < next <= |s|
    ensures forall stack :: Resolve(Split(s[pos..]), stack) == Resolve([seg] + Split(s[next..]), stack)
  {
    seg, next := [], pos;
    ghost var all := Split(s[pos..]);
    assert [] + all[0] == all[0] && [all[0]] + all[1..] == all;
    while next < |s| && s[next] != '/'
      invariant pos <= next <= |s|
      invariant Split(s[pos..]) == [seg + Split(s[next..])[0]] + Split(s[next..])[1..]
    {
      assert s[next..][1..] == s[next + 1..];
      var rest := Split(s[next + 1..]);
      assert seg + ([s[next]] + rest[0]) == seg + [s[next]] + rest[0];
      seg := seg + [s[next]];
      next := next + 1;
    }
    assert seg + [] == seg;
    if next < |s| {
      assert s[next..][1..] == s[next + 1..];
      next := next + 1;
      assert Split(s[pos..]) == [seg] + Split(s[next..]);
    } else {
      assert s[next..] == [];
      LastSegment(seg);
    }
  }

  lemma LastSegment(seg: string)
    ensures forall stack :: Resolve([seg], stack) == Resolve([seg] + [[]], stack)
  {
    hide Resolve;
    forall stack
      ensures Resolve([seg], stack) == Resolve([seg] + [[]], stack)
    {
      assert [seg] + [] == [seg];
      OneSegment(seg, [], stack);
      OneSegment(seg, [[]], stack);
      forall t: seq<string>
        ensures Resolve([[]], t) == Resolve([], t)
      {
        var none: seq<string> := [];
        assert [[]] + none == [[]];
        OneSegment([], none, t);
      }
    }
  }

  method NormalizeRelative(path: string) returns (ok: bool, out: string)
    ensures Normalize(path) == if ok then Some(out) else None
  {
    hide HasIllegalChars, HasReservedName, Slashed, Split, Resolve, Join;
    out := [];
    if |path| > MAX_PATH {
      return false, out;
    }
    var s := Slashed(path);
    if Refused(s) {
      return false, out;
    }
    var segs: seq<string> := [];
    var pos := 0;
    assert s[0..] == s;
    while pos < |s|
      invariant 0 <= pos <= |s|
      invariant Resolve(Split(s[pos..]), segs) == Resolve(Split(s), [])
    {
      var seg, next := ReadSegment(s, pos);
      OneSegment(seg, Split(s[next..]), segs);
      pos := next;
      if seg == [] || seg == "." {
        continue;
      }
      if seg == ".." {
        if segs == [] {
          return false, out;
        }
        segs := segs[..|segs| - 1];
        continue;
      }
      segs := segs + [seg];
    }
    assert s[pos..] == [];
    NoSegments(segs);
    if segs == [] {
      return false, out;
    }
    out := JoinSegments(segs);
    if HasIllegalChars(out) || HasReservedName(out) {
      return false, out;
    }
    return true, out;
  }

  lemma OneSegment(seg: string, rest: seq<string>, stack: seq<string>)
    ensures Resolve([seg] + rest, stack)
            == if Skipped(seg) then Resolve(rest, stack)
               else if Up(seg) then if stack == [] then None else Resolve(rest, stack[..|stack| - 1])
               else Resolve(rest, stack + [seg])
  {
    assert ([seg] + rest)[1..] == rest;
  }

  lemma NoSegments(stack: seq<string>)
    ensures Resolve(Split([]), stack) == Some(stack)
  {
    var none: seq<string> := [[]];
    assert none[1..] == [];
  }

  method JoinSegments(segs: seq<string>) returns (out: string)
    ensures out == Join(segs)
  {
    out := [];
    var i := 0;
    while i < |segs|
      invariant 0 <= i <= |segs|
      invariant out == Join(segs[..i])
    {
      assert segs[..i + 1] == segs[..i] + [segs[i]];
      JoinOneMore(segs[..i], segs[i]);
      if i > 0 {
        out := out + "/";
      }
      out := out + segs[i];
      i := i + 1;
    }
    assert segs[..i] == segs;
  }

  lemma {:induction false} JoinOneMore(segs: seq<string>, seg: string)
    ensures Join(segs + [seg]) == if segs == [] then seg else Join(segs) + "/" + seg
    decreases |segs|
  {
    var all := segs + [seg];
    if segs == [] {
      assert all == [seg];
    } else {
      assert all[1..] == segs[1..] + [seg];
      JoinOneMore(segs[1..], seg);
      JoinCut(segs[0], Join(segs[1..]), seg);
      assert |segs| == 1 ==> segs[1..] == [];
    }
  }

  lemma JoinCut(first: string, middle: string, last: string)
    ensures first + "/" + (middle + "/" + last) == first + "/" + middle + "/" + last
  {
  }

  // ---- inside the root ----

  function Backslashed(s: string): (r: string)
    ensures |r| == |s|
    ensures forall i :: 0 <= i < |s| ==> r[i] == if s[i] == '/' then '\\' else s[i]
  {
    seq(|s|, i requires 0 <= i < |s| => if s[i] == '/' then '\\' else s[i])
  }

  /** How the system lower-cases a character; comparisons also take '/' for a backslash. */
  function Folded(low: char -> char, s: string): string {
    seq(|s|, i requires 0 <= i < |s| => if low(s[i]) == '/' then '\\' else low(s[i]))
  }

  function TrimRoot(root: string): string
    decreases |root|
  {
    if root != [] && root[|root| - 1] == '\\' then TrimRoot(root[..|root| - 1]) else root
  }

  function TrimBoth(root: string): string
    decreases |root|
  {
    if root != [] && (root[|root| - 1] == '\\' || root[|root| - 1] == '/') then TrimBoth(root[..|root| - 1]) else root
  }

  predicate IsInsideRoot(low: char -> char, absRoot: string, absPath: string) {
    var root, path := TrimRoot(Folded(low, absRoot)), Folded(low, absPath);
    path == root || (|path| > |root| && path[..|root|] == root && path[|root|] == '\\')
  }

  lemma {:induction false} TrimmedIsPrefix(root: string)
    ensures TrimRoot(root) <= root
    ensures forall i :: |TrimRoot(root)| <= i < |root| ==> root[i] == '\\'
    decreases |root|
  {
    if root != [] && root[|root| - 1] == '\\' {
      TrimmedIsPrefix(root[..|root| - 1]);
    }
  }

  /** Whatever follows a root and a backslash is inside it. */
  lemma BelowIsInside(low: char -> char, root: string, below: string)
    requires low('\\') == '\\'
    ensures IsInsideRoot(low, root, root + "\\" + below)
  {
    var folded := Folded(low, root);
    TrimmedIsPrefix(folded);
    assert folded <= Folded(low, root + "\\" + below);
  }

  lemma {:induction false} TrimmedEitherWay(low: char -> char, root: string)
    requires low('\\') == '\\' && low('/') == '/'
    ensures TrimRoot(Folded(low, TrimBoth(root))) == TrimRoot(Folded(low, root))
    decreases |root|
  {
    if root != [] && (root[|root| - 1] == '\\' || root[|root| - 1] == '/') {
      var shorter := root[..|root| - 1];
      TrimmedEitherWay(low, shorter);
      assert Folded(low, root)[..|root| - 1] == Folded(low, shorter);
    }
  }

  /** The path of `rel` below `absRoot`, as `wide` turns it into the system's characters. It is inside the
      root whenever `rel` can be normalized: the last check never turns a normalized path away. */
  method JoinInsideRoot(low: char -> char, wide: string -> string, absRoot: string, rel: string)
    returns (ok: bool, out: string)
    requires low('\\') == '\\' && low('/') == '/'
    ensures ok <==> Normalize(rel).Some?
    ensures ok ==>
              && out == TrimBoth(absRoot) + "\\" + Backslashed(wide(Normalize(rel).value))
              && IsInsideRoot(low, absRoot, out)
  {
    hide Normalize, Folded, TrimRoot, Backslashed;
    out := [];
    var fine, normal := NormalizeRelative(rel);
    if !fine {
      return false, out;
    }
    var wrel := Backslashed(wide(normal));
    var root := absRoot;
    while root != [] && (root[|root| - 1] == '\\' || root[|root| - 1] == '/')
      invariant TrimBoth(root) == TrimBoth(absRoot)
      decreases |root|
    {
      root := root[..|root| - 1];
    }
    var full := root + "\\" + wrel;
    BelowIsInside(low, root, wrel);
    TrimmedEitherWay(low, absRoot);
    ok := IsInsideRoot(low, root, full);
    if ok {
      out := full;
    }
  }
}
