/** What normalizing a path guarantees. */
module PathLaws {
  import opened Basics
  import opened PathUtil

  // ---- segments ----

  /** How far below the root a walk ends: names count one up, ".." one down. */
  function Depth(segs: seq<string>): int
    decreases |segs|
  {
    if segs == [] then 0
    else (if Skipped(segs[0]) then 0 else if Up(segs[0]) then -1 else 1) + Depth(segs[1..])
  }

  /** Some first part of the walk has more ".." than names, counting from `start` directories down. */
  ghost predicate Escapes(segs: seq<string>, start: nat) {
    exists i :: 0 <= i <= |segs| && start + Depth(segs[..i]) < 0
  }

  lemma DepthCons(segs: seq<string>, i: nat)
    requires 1 <= i <= |segs|
    ensures Depth(segs[..i]) == Depth([segs[0]]) + Depth(segs[1..][..i - 1])
  {
    assert segs[..i][1..] == segs[1..][..i - 1] && segs[..i][0] == segs[0];
    assert [segs[0]][1..] == [];
  }

  lemma EscapesCons(segs: seq<string>, start: nat)
    requires segs != [] && start + Depth([segs[0]]) >= 0
    ensures Escapes(segs, start) <==> Escapes(segs[1..], start + Depth([segs[0]]))
  {
    hide Depth;
    var next := start + Depth([segs[0]]);
    if Escapes(segs, start) {
      var i :| 0 <= i <= |segs| && start + Depth(segs[..i]) < 0;
      NoWalk();
      assert segs[..0] == [];
      DepthCons(segs, i);
      assert next + Depth(segs[1..][..i - 1]) < 0;
    }
    if Escapes(segs[1..], next) {
      var i :| 0 <= i <= |segs[1..]| && next + Depth(segs[1..][..i]) < 0;
      DepthCons(segs, i + 1);
      assert start + Depth(segs[..i + 1]) < 0;
    }
  }

  lemma DepthOne(seg: string)
    ensures Depth([seg]) == if Skipped(seg) then 0 else if Up(seg) then -1 else 1
  {
    assert [seg][1..] == [];
    NoWalk();
  }

  lemma NoWalk()
    ensures Depth([]) == 0
  {
  }

  /** A walk fails exactly when some first part of it has more ".." than names. */
  lemma {:induction false} FailsIffEscapes(segs: seq<string>, stack: seq<string>)
    ensures Resolve(segs, stack).None? <==> Escapes(segs, |stack|)
    ensures Resolve(segs, stack).Some? ==> |Resolve(segs, stack).value| == |stack| + Depth(segs)
    decreases |segs|
  {
    if segs == [] {
      assert segs[..0] == [];
    } else {
      var one := Depth([segs[0]]);
      DepthOne(segs[0]);
      if |stack| + one < 0 {
        assert segs[..1] == [segs[0]];
        assert |stack| + Depth(segs[..1]) < 0;
      } else {
        EscapesCons(segs, |stack|);
        var next := if Skipped(segs[0]) then stack else if Up(segs[0]) then stack[..|stack| - 1] else stack + [segs[0]];
        FailsIffEscapes(segs[1..], next);
      }
    }
  }

  /** A character of a segment comes from the string and is no slash. */
  lemma {:induction false} PiecesAreFlat(s: string)
    ensures forall k, i :: 0 <= k < |Split(s)| && 0 <= i < |Split(s)[k]| ==>
              Split(s)[k][i] != '/' && Split(s)[k][i] in s
    decreases |s|
  {
    if s != [] {
      PiecesAreFlat(s[1..]);
      var rest, all := Split(s[1..]), Split(s);
      forall k, i | 0 <= k < |all| && 0 <= i < |all[k]|
        ensures all[k][i] != '/' && all[k][i] in s
      {
        if s[0] == '/' {
          assert all[k] == rest[k - 1];
        } else if k == 0 {
          assert all[0] == [s[0]] + rest[0];
        } else {
          assert all[k] == rest[k];
        }
      }
    }
  }

  predicate Flat(seg: string) { '/' !in seg }

  lemma {:induction false} SplitFlat(seg: string)
    requires Flat(seg)
    ensures Split(seg) == [seg]
    decreases |seg|
  {
    if seg != [] {
      SplitFlat(seg[1..]);
      assert [seg[0]] + seg[1..] == seg;
    }
  }

  lemma {:induction false} SplitCons(seg: string, t: string)
    requires Flat(seg)
    ensures Split(seg + "/" + t) == [seg] + Split(t)
    decreases |seg|
  {
    var s := seg + "/" + t;
    if seg == [] {
      assert s[1..] == t;
    } else {
      assert s[1..] == seg[1..] + "/" + t;
      SplitCons(seg[1..], t);
      assert [seg[0]] + seg[1..] == seg;
    }
  }

  /** Flat segments come apart as they were put together. */
  lemma {:induction false} SplitJoin(segs: seq<string>)
    requires segs != [] && forall seg <- segs :: Flat(seg)
    ensures Split(Join(segs)) == segs
    decreases |segs|
  {
    if |segs| == 1 {
      SplitFlat(segs[0]);
    } else {
      SplitJoin(segs[1..]);
      SplitCons(segs[0], Join(segs[1..]));
    }
  }

  /** What is left of a walk are names it met. */
  lemma {:induction false} LeftAreNames(segs: seq<string>, stack: seq<string>)
    ensures Resolve(segs, stack).Some? ==>
              forall seg <- Resolve(segs, stack).value :: seg in stack || (seg in segs && Name(seg))
    decreases |segs|
  {
    if segs != [] {
      if Skipped(segs[0]) {
        LeftAreNames(segs[1..], stack);
      } else if Up(segs[0]) {
        if stack != [] {
          LeftAreNames(segs[1..], stack[..|stack| - 1]);
        }
      } else {
        LeftAreNames(segs[1..], stack + [segs[0]]);
      }
    }
  }

  /** A walk over names alone keeps them all. */
  lemma {:induction false} NamesStay(segs: seq<string>, stack: seq<string>)
    requires forall seg <- segs :: Name(seg)
    ensures Resolve(segs, stack) == Some(stack + segs)
    decreases |segs|
  {
    if segs == [] {
      assert stack + segs == stack;
    } else {
      assert segs[0] in segs;
      NamesStay(segs[1..], stack + [segs[0]]);
      assert stack + [segs[0]] + segs[1..] == stack + segs;
    }
  }

  // ---- length ----

  function Total(segs: seq<string>): nat
    decreases |segs|
  {
    if segs == [] then 0 else |segs[0]| + 1 + Total(segs[1..])
  }

  lemma {:induction false} TotalAppend(a: seq<string>, b: seq<string>)
    ensures Total(a + b) == Total(a) + Total(b)
    decreases |a|
  {
    if a == [] {
      assert a + b == b;
    } else {
      TotalAppend(a[1..], b);
      assert (a + b)[1..] == a[1..] + b;
    }
  }

  lemma {:induction false} SplitTotal(s: string)
    ensures Total(Split(s)) == |s| + 1
    decreases |s|
  {
    if s == [] {
      assert Split(s)[1..] == [];
    } else {
      SplitTotal(s[1..]);
      var rest := Split(s[1..]);
      assert ([[]] + rest)[1..] == rest;
    }
  }

  lemma {:induction false} JoinTotal(segs: seq<string>)
    requires segs != []
    ensures |Join(segs)| == Total(segs) - 1
    decreases |segs|
  {
    if |segs| == 1 {
      assert segs[1..] == [];
    } else {
      JoinTotal(segs[1..]);
    }
  }

  lemma {:induction false} ResolveTotal(segs: seq<string>, stack: seq<string>)
    ensures Resolve(segs, stack).Some? ==> Total(Resolve(segs, stack).value) <= Total(stack) + Total(segs)
    decreases |segs|
  {
    if segs != [] {
      if Skipped(segs[0]) {
        ResolveTotal(segs[1..], stack);
      } else if Up(segs[0]) {
        if stack != [] {
          var shorter := stack[..|stack| - 1];
          assert shorter + [stack[|stack| - 1]] == stack;
          TotalAppend(shorter, [stack[|stack| - 1]]);
          ResolveTotal(segs[1..], shorter);
        }
      } else {
        TotalAppend(stack, [segs[0]]);
        assert [segs[0]][1..] == [];
        ResolveTotal(segs[1..], stack + [segs[0]]);
      }
    }
  }

  // ---- normalized paths ----

  lemma {:induction false} SlashedMeans(s: string)
    ensures |Slashed(s)| == |s| && '\\' !in Slashed(s)
    ensures '\\' !in s ==> Slashed(s) == s
    decreases |s|
  {
    if s != [] {
      SlashedMeans(s[1..]);
    }
  }

  predicate CleanSegment(seg: string) { Name(seg) && Flat(seg) && '\\' !in seg }

  /** The segments that normalizing keeps are clean names, and joining them adds no length. */
  lemma KeptSegments(path: string)
    requires Normalize(path).Some?
    ensures var r := Resolve(Split(Slashed(path)), []);
            && r.Some? && r.value != [] && Normalize(path).value == Join(r.value)
            && (forall seg <- r.value :: CleanSegment(seg))
            && |Join(r.value)| <= |path|
  {
    hide HasIllegalChars, HasReservedName, Resolve, Join, Split;
    var s := Slashed(path);
    var segs := Split(s);
    SlashedMeans(path);
    LeftAreNames(segs, []);
    var kept := Resolve(segs, []).value;
    forall seg <- kept
      ensures CleanSegment(seg)
    {
      var k :| 0 <= k < |segs| && segs[k] == seg;
      PiecesAreFlat(s);
      assert forall c <- seg :: exists i :: 0 <= i < |seg| && segs[k][i] == c;
    }
    ResolveTotal(segs, []);
    SplitTotal(s);
    JoinTotal(kept);
  }

  /** A normalized path consists of names alone: no empty segment, no ".", no "..", no backslash. */
  lemma NormalizedSegments(path: string)
    requires Normalize(path).Some?
    ensures var out := Normalize(path).value;
            out != [] && |out| <= |path| && forall seg <- Split(out) :: CleanSegment(seg)
  {
    hide Normalize, Resolve, Join, Split, CleanSegment;
    KeptSegments(path);
    var kept := Resolve(Split(Slashed(path)), []).value;
    AllFlat(kept);
    SplitJoin(kept);
    JoinTotal(kept);
    TotalPositive(kept);
  }

  lemma AllFlat(segs: seq<string>)
    requires forall seg <- segs :: CleanSegment(seg)
    ensures forall seg <- segs :: Flat(seg) && Name(seg)
  {
  }

  lemma TotalPositive(segs: seq<string>)
    requires segs != [] && forall seg <- segs :: CleanSegment(seg)
    ensures Total(segs) >= 2
  {
    assert segs[0] in segs;
  }

  lemma {:induction false} JoinHasNoBackslash(segs: seq<string>)
    requires forall seg <- segs :: '\\' !in seg
    ensures '\\' !in Join(segs)
    decreases |segs|
  {
    if |segs| > 1 {
      JoinHasNoBackslash(segs[1..]);
      assert segs[0] in segs;
    } else if |segs| == 1 {
      assert segs[0] in segs;
    }
  }

  lemma JoinedIsNotRefused(segs: seq<string>)
    requires segs != [] && (forall seg <- segs :: CleanSegment(seg)) && !HasIllegalChars(Join(segs))
    ensures !Refused(Join(segs))
  {
    hide Split;
    var out := Join(segs);
    JoinTotal(segs);
    TotalPositive(segs);
    assert segs[0] in segs;
    assert out[0] == segs[0][0] && segs[0][0] in segs[0];
    assert forall i :: 0 <= i < |out| ==> !IllegalChar(out[i]);
    assert IllegalChar(':') && IllegalChar('\0') by { assert ILLEGAL[2] == ':'; }
  }

  /** Normalizing a normalized path changes nothing. */
  lemma NormalizeIsIdempotent(path: string)
    requires Normalize(path).Some?
    ensures Normalize(Normalize(path).value) == Normalize(path)
  {
    hide HasIllegalChars, HasReservedName, Resolve, Join, Split, CleanSegment, Refused, Slashed;
    KeptSegments(path);
    var kept := Resolve(Split(Slashed(path)), []).value;
    var out := Join(kept);
    AllFlat(kept);
    NoBackslashes(kept);
    JoinHasNoBackslash(kept);
    SlashedMeans(out);
    JoinedIsNotRefused(kept);
    SplitJoin(kept);
    NamesStay(kept, []);
    assert [] + kept == kept;
  }

  lemma NoBackslashes(segs: seq<string>)
    requires forall seg <- segs :: CleanSegment(seg)
    ensures forall seg <- segs :: '\\' !in seg
  {
  }

  /** A path that is not absolute and not too long is turned away for leaving the root exactly when some
      first part of it has more ".." than names; otherwise it ends as deep as its names less its "..". */
  lemma EscapeMeans(path: string)
    ensures var walk := Resolve(Split(Slashed(path)), []);
            && (walk.None? <==> Escapes(Split(Slashed(path)), 0))
            && (walk.None? ==> Normalize(path).None?)
            && (Normalize(path).Some? ==> |Split(Normalize(path).value)| == Depth(Split(Slashed(path))))
  {
    hide HasIllegalChars, HasReservedName, Resolve, Join, Split, CleanSegment, Refused, Slashed, Depth;
    FailsIffEscapes(Split(Slashed(path)), []);
    if Normalize(path).Some? {
      KeptSegments(path);
      var kept := Resolve(Split(Slashed(path)), []).value;
      AllFlat(kept);
      SplitJoin(kept);
    }
  }

  // ---- which names survive, and when a path is taken ----

  /** The names left of a walk, read from its end: each ".." strikes out the nearest name before it. */
  function Survivors(segs: seq<string>, struck: nat): seq<string>
    decreases |segs|
  {
    if segs == [] then []
    else
      var front, last := segs[..|segs| - 1], segs[|segs| - 1];
      if Skipped(last) then Survivors(front, struck)
      else if Up(last) then Survivors(front, struck + 1)
      else if struck > 0 then Survivors(front, struck - 1)
      else Survivors(front, 0) + [last]
  }

  lemma {:induction false} ResolveSnoc(segs: seq<string>, seg: string, stack: seq<string>)
    ensures Resolve(segs + [seg], stack)
            == match Resolve(segs, stack)
               case None => None
               case Some(t) => Resolve([seg], t)
    decreases |segs|
  {
    if segs == [] {
      assert segs + [seg] == [seg];
    } else {
      assert (segs + [seg])[1..] == segs[1..] + [seg];
      if Skipped(segs[0]) {
        ResolveSnoc(segs[1..], seg, stack);
      } else if !Up(segs[0]) {
        ResolveSnoc(segs[1..], seg, stack + [segs[0]]);
      } else if stack != [] {
        ResolveSnoc(segs[1..], seg, stack[..|stack| - 1]);
      }
    }
  }

  /** The walk from the front ends with exactly the names that are left when reading from the end. */
  lemma {:induction false} WalkKeepsSurvivors(segs: seq<string>, struck: nat)
    ensures Resolve(segs, []).Some? ==>
              var t := Resolve(segs, []).value;
              struck <= |t| ==> Survivors(segs, struck) == t[..|t| - struck]
    decreases |segs|
  {
    if segs != [] {
      var front, last := segs[..|segs| - 1], segs[|segs| - 1];
      assert segs == front + [last];
      ResolveSnoc(front, last, []);
      var none: seq<string> := [];
      if Resolve(front, []).Some? {
        var t := Resolve(front, []).value;
        assert [last] + none == [last];
        OneSegment(last, none, t);
        WalkKeepsSurvivors(front, if Skipped(last) then struck else if Up(last) then struck + 1
                                  else if struck > 0 then struck - 1 else 0);
      }
    }
  }

  /** The device names: four plain ones, and "com" and "lpt" with a digit from 1 to 9. */
  predicate DeviceName(s: string) {
    || s in {"con", "prn", "aux", "nul"}
    || (|s| == 4 && s[..3] in {"com", "lpt"} && '1' <= s[3] <= '9')
  }

  lemma ReservedAreDevices(s: string)
    ensures s in RESERVED <==> DeviceName(s)
  {
    var com, lpt := ["com1", "com2", "com3", "com4", "com5", "com6", "com7", "com8", "com9"],
                    ["lpt1", "lpt2", "lpt3", "lpt4", "lpt5", "lpt6", "lpt7", "lpt8", "lpt9"];
    assert forall i :: 0 <= i < 9 ==>
      && |com[i]| == |lpt[i]| == 4 && com[i][..3] == "com" && lpt[i][..3] == "lpt"
      && com[i][3] == lpt[i][3] == '1' + i as char && com[i] in RESERVED && lpt[i] in RESERVED;
    if |s| == 4 && '1' <= s[3] <= '9' {
      var i := (s[3] - '1') as int;
      assert s == s[..3] + [s[3]] && com[i] == com[i][..3] + [com[i][3]] && lpt[i] == lpt[i][..3] + [lpt[i][3]];
    }
    assert s in RESERVED <==> s in com || s in lpt || s in {"con", "prn", "aux", "nul"};
  }

  lemma {:induction false} SlashedAt(s: string)
    ensures |Slashed(s)| == |s|
    ensures forall i :: 0 <= i < |s| ==> Slashed(s)[i] == if s[i] == '\\' then '/' else s[i]
    decreases |s|
  {
    if s != [] {
      SlashedAt(s[1..]);
      assert forall i :: 0 < i < |s| ==> Slashed(s)[i] == Slashed(s[1..])[i - 1] && s[i] == s[1..][i - 1];
    }
  }

  lemma {:induction false} JoinChars(segs: seq<string>, c: char)
    requires c != '/'
    ensures c in Join(segs) <==> exists seg <- segs :: c in seg
    decreases |segs|
  {
    if |segs| == 1 {
      assert segs[0] in segs;
    } else if |segs| > 1 {
      JoinChars(segs[1..], c);
      assert segs[0] in segs && forall seg <- segs[1..] :: seg in segs;
      assert forall seg <- segs :: seg == segs[0] || seg in segs[1..];
    }
  }

  lemma {:induction false} BaseOfFlat(seg: string)
    requires Flat(seg)
    ensures BaseName(seg) == seg
    decreases |seg|
  {
    if seg != [] {
      assert seg[|seg| - 1] in seg;
      assert forall c <- seg[..|seg| - 1] :: c in seg;
      BaseOfFlat(seg[..|seg| - 1]);
      assert seg[..|seg| - 1] + [seg[|seg| - 1]] == seg;
    }
  }

  lemma {:induction false} BaseBelow(dir: string, rest: string)
    ensures BaseName(dir + "/" + rest) == BaseName(rest)
    decreases |rest|
  {
    var s := dir + "/" + rest;
    if rest == [] {
      assert s[|s| - 1] == '/';
    } else {
      assert s[..|s| - 1] == dir + "/" + rest[..|rest| - 1] && s[|s| - 1] == rest[|rest| - 1];
      BaseBelow(dir, rest[..|rest| - 1]);
    }
  }

  lemma {:induction false} BaseOfJoin(segs: seq<string>)
    requires segs != [] && forall seg <- segs :: Flat(seg)
    ensures BaseName(Join(segs)) == segs[|segs| - 1]
    decreases |segs|
  {
    hide BaseName;
    assert forall seg <- segs[1..] :: seg in segs;
    if |segs| == 1 {
      BaseOfFlat(segs[0]);
    } else {
      BaseOfJoin(segs[1..]);
      BaseBelow(segs[0], Join(segs[1..]));
    }
  }

  /** An absolute path, one with a drive, one with a NUL, or none at all. */
  predicate NotRelative(path: string) {
    path == [] || path[0] == '/' || path[0] == '\\' || (|path| > 1 && path[1] == ':') || '\0' in path
  }

  predicate Forbidden(c: char) { c < ' ' || c in {'<', '>', ':', '"', '|', '?', '*'} }

  /** A name that the file system takes. */
  predicate Plain(name: string) {
    (forall c <- name :: !Forbidden(c)) && !DeviceName(BeforeDot(LowerAll(name)))
  }

  predicate EndsBadly(name: string) {
    name != [] && (name[|name| - 1] == '.' || name[|name| - 1] == ' ')
  }

  lemma RefusedMeans(path: string)
    ensures Refused(Slashed(path)) <==> NotRelative(path)
  {
    SlashedAt(path);
    if '\0' in path {
      var i :| 0 <= i < |path| && path[i] == '\0';
      assert Slashed(path)[i] == '\0';
    }
  }

  lemma ForbiddenMeans(c: char)
    ensures IllegalChar(c) <==> Forbidden(c)
  {
    assert forall i :: 0 <= i < |ILLEGAL| ==> ILLEGAL[i] in {'<', '>', ':', '"', '|', '?', '*'};
    assert ILLEGAL[0] == '<' && ILLEGAL[1] == '>' && ILLEGAL[2] == ':' && ILLEGAL[3] == '"' && ILLEGAL[4] == '|';
    assert ILLEGAL[5] == '?' && ILLEGAL[6] == '*';
  }

  lemma IllegalMeans(kept: seq<string>)
    requires kept != [] && forall seg <- kept :: Flat(seg)
    ensures HasIllegalChars(Join(kept))
            <==> (exists seg <- kept :: exists c <- seg :: Forbidden(c)) || EndsBadly(kept[|kept| - 1])
  {
    hide Join, BaseName;
    var out := Join(kept);
    BaseOfJoin(kept);
    assert !Forbidden('/');
    if i :| 0 <= i < |out| && IllegalChar(out[i]) {
      ForbiddenMeans(out[i]);
      JoinChars(kept, out[i]);
    }
    if exists seg <- kept :: exists c <- seg :: Forbidden(c) {
      var seg :| seg in kept && exists c <- seg :: Forbidden(c);
      var c :| c in seg && Forbidden(c);
      ForbiddenMeans(c);
      JoinChars(kept, c);
      var i :| 0 <= i < |out| && out[i] == c;
      assert IllegalChar(out[i]);
    }
  }

  lemma ReservedMeans(kept: seq<string>)
    requires kept != [] && forall seg <- kept :: Flat(seg)
    ensures HasReservedName(Join(kept)) <==> exists seg <- kept :: DeviceName(BeforeDot(LowerAll(seg)))
  {
    hide Join, Split, DeviceName, BeforeDot, LowerAll;
    SplitJoin(kept);
    forall seg <- kept
      ensures BeforeDot(LowerAll(seg)) in RESERVED <==> DeviceName(BeforeDot(LowerAll(seg)))
    {
      ReservedAreDevices(BeforeDot(LowerAll(seg)));
    }
    assert forall i :: 0 <= i < |kept| ==> kept[i] in kept;
  }

  lemma SurvivorsAreFlat(path: string)
    requires Resolve(Split(Slashed(path)), []).Some?
    ensures forall seg <- Resolve(Split(Slashed(path)), []).value :: Flat(seg)
  {
    hide Resolve, Split;
    var segs := Split(Slashed(path));
    LeftAreNames(segs, []);
    PiecesAreFlat(Slashed(path));
    forall seg <- Resolve(segs, []).value
      ensures Flat(seg)
    {
      var k :| 0 <= k < |segs| && segs[k] == seg;
      assert forall i :: 0 <= i < |segs[k]| ==> segs[k][i] != '/';
    }
  }

  /** A path is taken exactly when it is relative, no longer than 4096, never above its start, and leaves at least one
      name; every name left is plain, and the last one does not end in a dot or a space. The result is those names. */
  lemma NormalizeMeans(path: string)
    ensures var segs := Split(Slashed(path));
            var kept := Survivors(segs, 0);
            && (Normalize(path).Some? <==>
                 && |path| <= 4096 && !NotRelative(path) && !Escapes(segs, 0)
                 && kept != [] && (forall seg <- kept :: Plain(seg)) && !EndsBadly(kept[|kept| - 1]))
            && (Normalize(path).Some? ==> Normalize(path).value == Join(kept))
  {
    hide HasIllegalChars, HasReservedName, Resolve, Join, Split, Refused, Slashed, Depth, Survivors, DeviceName,
         Forbidden;
    var segs := Split(Slashed(path));
    RefusedMeans(path);
    FailsIffEscapes(segs, []);
    WalkKeepsSurvivors(segs, 0);
    if Resolve(segs, []).Some? {
      var kept := Resolve(segs, []).value;
      assert kept[..|kept| - 0] == kept;
      SurvivorsAreFlat(path);
      if kept != [] {
        IllegalMeans(kept);
        ReservedMeans(kept);
      }
    }
  }

  // ---- inside the root ----

  predicate IsSlash(c: char) { c == '/' || c == '\\' }

  /** Trimming takes off exactly the slashes at the end. */
  lemma {:induction false} TrimBothMeans(root: string)
    ensures TrimBoth(root) <= root
    ensures forall i :: |TrimBoth(root)| <= i < |root| ==> IsSlash(root[i])
    ensures TrimBoth(root) != [] ==> !IsSlash(TrimBoth(root)[|TrimBoth(root)| - 1])
    decreases |root|
  {
    if root != [] && IsSlash(root[|root| - 1]) {
      TrimBothMeans(root[..|root| - 1]);
    }
  }

  lemma {:induction false} TrimRootMeans(root: string)
    ensures TrimRoot(root) <= root
    ensures forall i :: |TrimRoot(root)| <= i < |root| ==> root[i] == '\\'
    ensures TrimRoot(root) != [] ==> TrimRoot(root)[|TrimRoot(root)| - 1] != '\\'
    decreases |root|
  {
    if root != [] && root[|root| - 1] == '\\' {
      TrimRootMeans(root[..|root| - 1]);
    }
  }

  /** What follows a root that does not end in a slash is inside it exactly when there is nothing or a slash first: a
      neighbour whose name only begins like the root's is outside. */
  lemma NeighboursAreOutside(low: char -> char, root: string, rest: string)
    requires root != [] && low(root[|root| - 1]) != '\\' && low(root[|root| - 1]) != '/'
    ensures IsInsideRoot(low, root, root + rest) <==> rest == [] || low(rest[0]) == '\\' || low(rest[0]) == '/'
  {
    var folded, path := Folded(low, root), Folded(low, root + rest);
    assert TrimRoot(folded) == folded;
    assert path[..|root|] == folded;
    if rest == [] {
      assert root + rest == root;
    } else {
      assert (root + rest)[|root|] == rest[0];
    }
  }

  /** A path that does not begin with the root, but for the case of letters and the slant of slashes, is outside. */
  lemma StrangersAreOutside(low: char -> char, root: string, path: string, i: nat)
    requires i < |root| && i < |TrimRoot(Folded(low, root))|
    requires i >= |path| || Folded(low, path)[i] != Folded(low, root)[i]
    ensures !IsInsideRoot(low, root, path)
  {
    TrimRootMeans(Folded(low, root));
    var trimmed, folded := TrimRoot(Folded(low, root)), Folded(low, path);
    assert trimmed[i] == Folded(low, root)[i];
    if |folded| > |trimmed| {
      assert folded[..|trimmed|][i] == folded[i];
    }
  }
}
