/** Line edit scripts computed from a longest-common-subsequence table. */
module Diff {
  import opened Basics
  import opened Lines

  /** Table cells above which a text is not merged automatically. */
  const MAX_AUTO_MERGE_CELLS := 16_000_000

  newtype uint32 = x: int | 0 <= x < 0x1_0000_0000

  /** One changed region: `base[aStart..aEnd]` is replaced by `lines`. */
  datatype Edit = Edit(aStart: nat, aEnd: nat, lines: seq<Line>)

  // ---- edit scripts and what they do ----

  /** The edits lie in `[lo, hi]`, none is empty, and a kept line separates neighbours. */
  predicate WellFormed(es: seq<Edit>, lo: nat, hi: nat) {
    es == [] ||
    (&& lo <= es[0].aStart <= es[0].aEnd <= hi
     && (es[0].aStart < es[0].aEnd || es[0].lines != [])
     && (|es| > 1 ==> es[0].aEnd < es[1].aStart)
     && WellFormed(es[1..], es[0].aEnd, hi))
  }

  /** The text that `base[lo..hi]` becomes. */
  function Render(base: seq<Line>, lo: nat, hi: nat, es: seq<Edit>): seq<Line>
    requires lo <= hi <= |base| && WellFormed(es, lo, hi)
    decreases |es|
  {
    if es == [] then base[lo..hi]
    else base[lo..es[0].aStart] + es[0].lines + Render(base, es[0].aEnd, hi, es[1..])
  }

  /** The lines of `base[lo..hi]` that no edit touches. */
  function Kept(base: seq<Line>, lo: nat, hi: nat, es: seq<Edit>): seq<Line>
    requires lo <= hi <= |base| && WellFormed(es, lo, hi)
    decreases |es|
  {
    if es == [] then base[lo..hi]
    else base[lo..es[0].aStart] + Kept(base, es[0].aEnd, hi, es[1..])
  }

  /** `s` is what remains of `t` after deleting some lines. */
  predicate IsSubseq(s: seq<Line>, t: seq<Line>) {
    s == [] || (t != [] && ((s[0] == t[0] && IsSubseq(s[1..], t[1..])) || IsSubseq(s, t[1..])))
  }

  ghost predicate IsCommonSubseq(s: seq<Line>, a: seq<Line>, b: seq<Line>) {
    IsSubseq(s, a) && IsSubseq(s, b)
  }

  // ---- the table and the backtracking, as functions ----

  /** Table entry: the LCS length of `from[i..]` and `to[j..]`. */
  function Lcs(from: seq<Line>, to: seq<Line>, i: nat, j: nat): (r: nat)
    requires i <= |from| && j <= |to|
    ensures r <= |from| - i && r <= |to| - j
    decreases |from| - i + |to| - j
  {
    if i == |from| || j == |to| then 0
    else if from[i] == to[j] then Lcs(from, to, i + 1, j + 1) + 1
    else Max(Lcs(from, to, i + 1, j), Lcs(from, to, i, j + 1))
  }

  /** Puts a region that runs from `start` to `i` and inserts `lines` before `rest`;
      it absorbs the first edit of `rest` when that one starts at `i`. */
  function Glue(start: nat, lines: seq<Line>, i: nat, rest: seq<Edit>): seq<Edit> {
    if rest != [] && rest[0].aStart == i then
      [Edit(start, rest[0].aEnd, lines + rest[0].lines)] + rest[1..]
    else [Edit(start, i, lines)] + rest
  }

  /** The next backtracking step at `(i, j)`. */
  datatype Move = Finish | Keep | Delete | Insert

  function NextMove(from: seq<Line>, to: seq<Line>, i: nat, j: nat): Move
    requires i <= |from| && j <= |to|
  {
    if i == |from| && j == |to| then Finish
    else if i < |from| && j < |to| && from[i] == to[j] then Keep
    else if j == |to| || (i < |from| && Lcs(from, to, i + 1, j) >= Lcs(from, to, i, j + 1)) then Delete
    else Insert
  }

  /** The script that backtracking from table cell `(i, j)` yields. */
  function Script(from: seq<Line>, to: seq<Line>, i: nat, j: nat): (es: seq<Edit>)
    requires i <= |from| && j <= |to|
    ensures WellFormed(es, i, |from|)
    decreases |from| - i + |to| - j
  {
    match NextMove(from, to, i, j)
    case Finish => []
    case Keep => Script(from, to, i + 1, j + 1)
    case Delete =>
      GlueWellFormed(i, [], i + 1, Script(from, to, i + 1, j), |from|);
      Glue(i, [], i + 1, Script(from, to, i + 1, j))
    case Insert =>
      GlueWellFormed(i, [to[j]], i, Script(from, to, i, j + 1), |from|);
      Glue(i, [to[j]], i, Script(from, to, i, j + 1))
  }

  lemma GlueWellFormed(start: nat, lines: seq<Line>, i: nat, rest: seq<Edit>, hi: nat)
    requires start <= i <= hi && WellFormed(rest, i, hi)
    requires start < i || lines != []
    ensures WellFormed(Glue(start, lines, i, rest), start, hi)
  {
    var g := Glue(start, lines, i, rest);
    if rest != [] && rest[0].aStart == i {
      assert g[1..] == rest[1..];
    } else {
      assert g[1..] == rest;
    }
  }

  /** Unfolding a script at its first edit. */
  lemma FirstEdit(base: seq<Line>, lo: nat, hi: nat, e: Edit, rest: seq<Edit>)
    requires lo <= e.aStart <= e.aEnd <= hi <= |base|
    requires e.aStart < e.aEnd || e.lines != []
    requires WellFormed(rest, e.aEnd, hi) && (rest != [] ==> e.aEnd < rest[0].aStart)
    ensures WellFormed([e] + rest, lo, hi)
    ensures Render(base, lo, hi, [e] + rest) == base[lo..e.aStart] + e.lines + Render(base, e.aEnd, hi, rest)
    ensures Kept(base, lo, hi, [e] + rest) == base[lo..e.aStart] + Kept(base, e.aEnd, hi, rest)
  {
    assert ([e] + rest)[1..] == rest;
  }

  lemma GlueRender(base: seq<Line>, start: nat, lines: seq<Line>, i: nat, rest: seq<Edit>, hi: nat)
    requires start <= i <= hi <= |base| && WellFormed(rest, i, hi)
    requires start < i || lines != []
    ensures WellFormed(Glue(start, lines, i, rest), start, hi)
    ensures Render(base, start, hi, Glue(start, lines, i, rest)) == lines + Render(base, i, hi, rest)
    ensures Kept(base, start, hi, Glue(start, lines, i, rest)) == Kept(base, i, hi, rest)
  {
    if rest != [] && rest[0].aStart == i {
      var e, tail := rest[0], rest[1..];
      assert rest == [e] + tail;
      GlueAbsorbs(base, start, lines, i, e, tail, hi);
    } else {
      FirstEdit(base, start, hi, Edit(start, i, lines), rest);
      assert base[start..start] + lines == lines;
    }
  }

  lemma GlueAbsorbs(base: seq<Line>, start: nat, lines: seq<Line>, i: nat, e: Edit, tail: seq<Edit>, hi: nat)
    requires start <= i == e.aStart <= e.aEnd <= hi <= |base|
    requires start < i || lines != []
    requires e.aStart < e.aEnd || e.lines != []
    requires WellFormed(tail, e.aEnd, hi) && (tail != [] ==> e.aEnd < tail[0].aStart)
    ensures var g := [Edit(start, e.aEnd, lines + e.lines)] + tail;
            && WellFormed(g, start, hi) && WellFormed([e] + tail, i, hi)
            && Render(base, start, hi, g) == lines + Render(base, i, hi, [e] + tail)
            && Kept(base, start, hi, g) == Kept(base, i, hi, [e] + tail)
  {
    assert base[start..start] == [] && base[i..i] == [];
    FirstEdit(base, start, hi, Edit(start, e.aEnd, lines + e.lines), tail);
    FirstEdit(base, i, hi, e, tail);
    EmptyFront(lines, e.lines, Render(base, e.aEnd, hi, tail));
  }

  lemma EmptyFront(a: seq<Line>, b: seq<Line>, c: seq<Line>)
    ensures [] + (a + b) + c == a + ([] + b + c)
  {
  }

  /** Widening the window to the left by one kept line. */
  lemma KeepOneMore(base: seq<Line>, i: nat, hi: nat, es: seq<Edit>)
    requires i < hi <= |base| && WellFormed(es, i + 1, hi)
    ensures WellFormed(es, i, hi)
    ensures Render(base, i, hi, es) == [base[i]] + Render(base, i + 1, hi, es)
    ensures Kept(base, i, hi, es) == [base[i]] + Kept(base, i + 1, hi, es)
  {
    if es == [] {
      assert base[i..hi] == [base[i]] + base[i + 1..hi];
    } else {
      var a := es[0].aStart;
      var head := base[i + 1..a];
      assert base[i..a] == [base[i]] + head;
      Assoc3([base[i]], head, es[0].lines, Render(base, es[0].aEnd, hi, es[1..]));
      Assoc3([base[i]], head, [], Kept(base, es[0].aEnd, hi, es[1..]));
    }
  }

  lemma Assoc3(a: seq<Line>, b: seq<Line>, c: seq<Line>, d: seq<Line>)
    ensures (a + b) + c + d == a + (b + c + d)
    ensures (a + b) + d == a + (b + d)
  {
  }

  // ---- correctness of scripts ----

  /** Where backtracking goes from one cell, and what that contributes to the script. */
  lemma ScriptStep(from: seq<Line>, to: seq<Line>, i: nat, j: nat)
    requires i <= |from| && j <= |to|
    ensures match NextMove(from, to, i, j)
            case Finish => Script(from, to, i, j) == []
            case Keep =>
              && Script(from, to, i, j) == Script(from, to, i + 1, j + 1)
              && (Script(from, to, i, j) != [] ==> Script(from, to, i, j)[0].aStart > i)
            case Delete => Script(from, to, i, j) == Glue(i, [], i + 1, Script(from, to, i + 1, j))
            case Insert => Script(from, to, i, j) == Glue(i, [to[j]], i, Script(from, to, i, j + 1))
  {
    hide Glue;
  }

  /** The script from cell `(i, j)` yields `to[j..]` and keeps an LCS's worth of lines. */
  ghost predicate CorrectAt(from: seq<Line>, to: seq<Line>, i: nat, j: nat)
    requires i <= |from| && j <= |to|
  {
    && Render(from, i, |from|, Script(from, to, i, j)) == to[j..]
    && |Kept(from, i, |from|, Script(from, to, i, j))| == Lcs(from, to, i, j)
  }

  lemma KeepCorrect(from: seq<Line>, to: seq<Line>, i: nat, j: nat)
    requires i <= |from| && j <= |to| && NextMove(from, to, i, j) == Keep
    requires CorrectAt(from, to, i + 1, j + 1)
    ensures CorrectAt(from, to, i, j)
  {
    KeepOneMore(from, i, |from|, Script(from, to, i + 1, j + 1));
    assert to[j..] == [to[j]] + to[j + 1..];
  }

  lemma DeleteCorrect(from: seq<Line>, to: seq<Line>, i: nat, j: nat)
    requires i <= |from| && j <= |to| && NextMove(from, to, i, j) == Delete
    requires CorrectAt(from, to, i + 1, j)
    ensures CorrectAt(from, to, i, j)
  {
    hide Script, Glue, Render, Kept;
    ScriptStep(from, to, i, j);
    var rest := Script(from, to, i + 1, j);
    GlueRender(from, i, [], i + 1, rest, |from|);
    assert [] + Render(from, i + 1, |from|, rest) == to[j..];
  }

  lemma InsertCorrect(from: seq<Line>, to: seq<Line>, i: nat, j: nat)
    requires i <= |from| && j <= |to| && NextMove(from, to, i, j) == Insert
    requires CorrectAt(from, to, i, j + 1)
    ensures CorrectAt(from, to, i, j)
  {
    hide Script, Glue, Render, Kept;
    ScriptStep(from, to, i, j);
    var rest := Script(from, to, i, j + 1);
    GlueRender(from, i, [to[j]], i, rest, |from|);
    assert to[j..] == [to[j]] + to[j + 1..];
  }

  lemma {:induction false} ScriptCorrect(from: seq<Line>, to: seq<Line>, i: nat, j: nat)
    requires i <= |from| && j <= |to|
    ensures CorrectAt(from, to, i, j)
    decreases |from| - i + |to| - j
  {
    match NextMove(from, to, i, j)
    case Finish =>
    case Keep =>
      ScriptCorrect(from, to, i + 1, j + 1);
      KeepCorrect(from, to, i, j);
    case Delete =>
      ScriptCorrect(from, to, i + 1, j);
      DeleteCorrect(from, to, i, j);
    case Insert =>
      ScriptCorrect(from, to, i, j + 1);
      InsertCorrect(from, to, i, j);
  }

  lemma {:induction false} SubseqTail(s: seq<Line>, t: seq<Line>)
    requires s != [] && IsSubseq(s, t)
    ensures t != [] && IsSubseq(s[1..], t[1..])
    ensures s[0] != t[0] ==> IsSubseq(s, t[1..])
  {
    if IsSubseq(s, t[1..]) {
      SubseqTail(s, t[1..]);
      SubseqWiden(s[1..], t[1..]);
    }
  }

  lemma SubseqWiden(s: seq<Line>, t: seq<Line>)
    requires t != [] && IsSubseq(s, t[1..])
    ensures IsSubseq(s, t)
  {
  }

  /** No common subsequence is longer than the table entry. */
  lemma {:induction false} LcsIsUpperBound(from: seq<Line>, to: seq<Line>, i: nat, j: nat, s: seq<Line>)
    requires i <= |from| && j <= |to|
    requires IsCommonSubseq(s, from[i..], to[j..])
    ensures |s| <= Lcs(from, to, i, j)
    decreases |from| - i + |to| - j
  {
    if s != [] {
      SubseqTail(s, from[i..]);
      SubseqTail(s, to[j..]);
      assert from[i..][1..] == from[i + 1..] && to[j..][1..] == to[j + 1..];
      if from[i] == to[j] {
        LcsIsUpperBound(from, to, i + 1, j + 1, s[1..]);
      } else if s[0] != from[i] {
        LcsIsUpperBound(from, to, i + 1, j, s);
      } else {
        LcsIsUpperBound(from, to, i, j + 1, s);
      }
    }
  }

  lemma {:induction false} SubseqOfSelf(s: seq<Line>)
    ensures IsSubseq(s, s)
  {
    if s != [] {
      SubseqOfSelf(s[1..]);
    }
  }

  lemma {:induction false} SubseqConcat(a: seq<Line>, b: seq<Line>, c: seq<Line>, d: seq<Line>)
    requires IsSubseq(a, b) && IsSubseq(c, d)
    ensures IsSubseq(a + c, b + d)
    decreases |b|
  {
    if b == [] {
      assert a + c == c && b + d == d;
    } else {
      assert (b + d)[1..] == b[1..] + d;
      if a == [] {
        SubseqConcat([], b[1..], c, d);
        assert a + c == [] + c;
      } else if a[0] == b[0] && IsSubseq(a[1..], b[1..]) {
        SubseqConcat(a[1..], b[1..], c, d);
        assert (a + c)[1..] == a[1..] + c;
      } else {
        SubseqConcat(a, b[1..], c, d);
      }
    }
  }

  /** The untouched lines survive on both sides of any script. */
  lemma {:induction false} KeptIsCommon(base: seq<Line>, lo: nat, hi: nat, es: seq<Edit>)
    requires lo <= hi <= |base| && WellFormed(es, lo, hi)
    ensures IsCommonSubseq(Kept(base, lo, hi, es), base[lo..hi], Render(base, lo, hi, es))
    decreases |es|
  {
    if es == [] {
      SubseqOfSelf(base[lo..hi]);
    } else {
      var e := es[0];
      var head, rest := base[lo..e.aStart], Kept(base, e.aEnd, hi, es[1..]);
      KeptIsCommon(base, e.aEnd, hi, es[1..]);
      SubseqInsert(head, base[e.aStart..e.aEnd], rest, base[e.aEnd..hi]);
      CutInThree(base, lo, e.aStart, e.aEnd, hi);
      SubseqInsert(head, e.lines, rest, Render(base, e.aEnd, hi, es[1..]));
    }
  }

  lemma CutInThree(s: seq<Line>, lo: nat, a: nat, b: nat, hi: nat)
    requires lo <= a <= b <= hi <= |s|
    ensures s[lo..hi] == s[lo..a] + s[a..b] + s[b..hi]
  {
  }

  lemma SubseqInsert(head: seq<Line>, extra: seq<Line>, s: seq<Line>, t: seq<Line>)
    requires IsSubseq(s, t)
    ensures IsSubseq(head + s, head + extra + t)
  {
    SubseqOfSelf(head);
    SubseqConcat([], extra, s, t);
    assert [] + s == s;
    SubseqConcat(head, head, s, extra + t);
    assert head + (extra + t) == head + extra + t;
  }

  /** The script from `from` to `to`. */
  function Edits(from: seq<Line>, to: seq<Line>): (es: seq<Edit>)
    ensures WellFormed(es, 0, |from|)
  {
    Script(from, to, 0, 0)
  }

  /** A script is in bounds, strictly ordered with a kept line between neighbours, and has no empty edit. */
  lemma {:induction false} WellFormedMeans(es: seq<Edit>, lo: nat, hi: nat)
    requires WellFormed(es, lo, hi)
    ensures forall k :: 0 <= k < |es| ==> lo <= es[k].aStart <= es[k].aEnd <= hi
    ensures forall k :: 0 <= k < |es| ==> es[k].aStart < es[k].aEnd || es[k].lines != []
    ensures forall k, l :: 0 <= k < l < |es| ==> es[k].aEnd < es[l].aStart
  {
    if es != [] {
      WellFormedMeans(es[1..], es[0].aEnd, hi);
      assert forall k :: 1 <= k < |es| ==> es[k] == es[1..][k - 1];
    }
  }

  /** `Edits` turns `from` into `to` and keeps as many lines as any common subsequence has. */
  lemma EditsAreOptimal(from: seq<Line>, to: seq<Line>)
    ensures Render(from, 0, |from|, Edits(from, to)) == to
    ensures var kept := Kept(from, 0, |from|, Edits(from, to));
            && IsCommonSubseq(kept, from, to)
            && forall s :: IsCommonSubseq(s, from, to) ==> |s| <= |kept|
  {
    ScriptCorrect(from, to, 0, 0);
    assert to[0..] == to && from[0..] == from && from[0..|from|] == from;
    KeptIsCommon(from, 0, |from|, Edits(from, to));
    forall s | IsCommonSubseq(s, from, to)
      ensures |s| <= Lcs(from, to, 0, 0)
    {
      LcsIsUpperBound(from, to, 0, 0, s);
    }
  }

  // ---- parts of a script ----

  lemma RenderNothing(base: seq<Line>, lo: nat, hi: nat)
    requires lo <= hi <= |base|
    ensures Render(base, lo, hi, []) == base[lo..hi]
  {
  }

  lemma RenderWiden(base: seq<Line>, lo: nat, mid: nat, hi: nat, es: seq<Edit>)
    requires lo <= mid <= hi <= |base| && WellFormed(es, mid, hi)
    ensures WellFormed(es, lo, hi)
    ensures Render(base, lo, hi, es) == base[lo..mid] + Render(base, mid, hi, es)
    ensures Kept(base, lo, hi, es) == base[lo..mid] + Kept(base, mid, hi, es)
  {
    if es == [] {
      assert base[lo..hi] == base[lo..mid] + base[mid..hi];
    } else {
      var a := es[0].aStart;
      assert base[lo..a] == base[lo..mid] + base[mid..a];
      Assoc3(base[lo..mid], base[mid..a], es[0].lines, Render(base, es[0].aEnd, hi, es[1..]));
      Assoc3(base[lo..mid], base[mid..a], [], Kept(base, es[0].aEnd, hi, es[1..]));
    }
  }

  lemma {:induction false} RenderSplit(base: seq<Line>, lo: nat, mid: nat, hi: nat, a: seq<Edit>, b: seq<Edit>)
    requires lo <= mid <= hi <= |base| && WellFormed(a, lo, mid) && WellFormed(b, mid, hi)
    requires WellFormed(a + b, lo, hi)
    ensures Render(base, lo, hi, a + b) == Render(base, lo, mid, a) + Render(base, mid, hi, b)
    ensures Kept(base, lo, hi, a + b) == Kept(base, lo, mid, a) + Kept(base, mid, hi, b)
    decreases |a|
  {
    if a == [] {
      assert a + b == b;
      RenderWiden(base, lo, mid, hi, b);
    } else {
      var e := a[0];
      assert (a + b)[0] == e && (a + b)[1..] == a[1..] + b;
      RenderSplit(base, e.aEnd, mid, hi, a[1..], b);
      var head := base[lo..e.aStart];
      Assoc3(head + e.lines, Render(base, e.aEnd, mid, a[1..]), [], Render(base, mid, hi, b));
      Assoc3(head, Kept(base, e.aEnd, mid, a[1..]), [], Kept(base, mid, hi, b));
    }
  }

  /** A script that deletes no line of its window but is not empty makes the text longer. */
  lemma {:induction false} KeptLength(base: seq<Line>, lo: nat, hi: nat, es: seq<Edit>)
    requires lo <= hi <= |base| && WellFormed(es, lo, hi)
    ensures |Kept(base, lo, hi, es)| <= hi - lo
    ensures es != [] && |Kept(base, lo, hi, es)| == hi - lo ==> |Render(base, lo, hi, es)| > hi - lo
    decreases |es|
  {
    if es != [] {
      KeptLength(base, es[0].aEnd, hi, es[1..]);
    }
  }

  /** Keeping a whole unchanged stretch between two scripts is a common subsequence. */
  lemma KeepStretch(base: seq<Line>, lo: nat, hi: nat, a: seq<Edit>, b: seq<Edit>)
    requires lo <= hi <= |base| && WellFormed(a, 0, lo) && WellFormed(b, hi, |base|)
    ensures var same := base[lo..hi];
            IsCommonSubseq(Kept(base, 0, lo, a) + same + Kept(base, hi, |base|, b), base,
                           Render(base, 0, lo, a) + same + Render(base, hi, |base|, b))
  {
    hide IsSubseq, Render, Kept;
    var n, same := |base|, base[lo..hi];
    var ka, kb := Kept(base, 0, lo, a), Kept(base, hi, n, b);
    KeptIsCommon(base, 0, lo, a);
    KeptIsCommon(base, hi, n, b);
    SubseqOfSelf(same);
    SubseqConcat(ka, base[0..lo], same, same);
    SubseqConcat(ka + same, base[0..lo] + same, kb, base[hi..n]);
    CutInThree(base, 0, lo, hi, n);
    assert base[0..n] == base;
    SubseqConcat(ka, Render(base, 0, lo, a), same, same);
    SubseqConcat(ka + same, Render(base, 0, lo, a) + same, kb, Render(base, hi, n, b));
  }

  /** A script that reproduces a stretch it edits keeps fewer lines than the stretch has. */
  lemma ReproducingLosesLines(base: seq<Line>, lo: nat, hi: nat, a: seq<Edit>, m: seq<Edit>, b: seq<Edit>)
    requires lo <= hi <= |base| && m != []
    requires WellFormed(a, 0, lo) && WellFormed(m, lo, hi) && WellFormed(b, hi, |base|)
    requires WellFormed(a + m, 0, hi) && WellFormed(a + m + b, 0, |base|)
    requires Render(base, lo, hi, m) == base[lo..hi]
    ensures var longer := Kept(base, 0, lo, a) + base[lo..hi] + Kept(base, hi, |base|, b);
            && |Kept(base, 0, |base|, a + m + b)| < |longer|
            && IsCommonSubseq(longer, base, Render(base, 0, |base|, a + m + b))
  {
    RenderSplit(base, 0, hi, |base|, a + m, b);
    RenderSplit(base, 0, lo, hi, a, m);
    KeptLength(base, lo, hi, m);
    KeepStretch(base, lo, hi, a, b);
  }

  /** Because the script is optimal, any stretch of the base that it edits really changes. */
  lemma EditedStretchDiffers(from: seq<Line>, to: seq<Line>, lo: nat, hi: nat,
                             a: seq<Edit>, m: seq<Edit>, b: seq<Edit>)
    requires Edits(from, to) == a + m + b && m != []
    requires lo <= hi <= |from|
    requires WellFormed(a, 0, lo) && WellFormed(m, lo, hi) && WellFormed(b, hi, |from|)
    requires WellFormed(a + m, 0, hi)
    ensures Render(from, lo, hi, m) != from[lo..hi]
  {
    if Render(from, lo, hi, m) == from[lo..hi] {
      ReproducingLosesLines(from, lo, hi, a, m, b);
      ScriptCorrect(from, to, 0, 0);
      assert to[0..] == to && from[0..] == from;
      var longer := Kept(from, 0, lo, a) + from[lo..hi] + Kept(from, hi, |from|, b);
      LcsIsUpperBound(from, to, 0, 0, longer);
      assert false;
    }
  }

  // ---- the table and the backtracking, as the program runs them ----

  predicate TooLarge(from: seq<Line>, to: seq<Line>) {
    |from| > 0 && |to| > 0 && |from| * |to| > MAX_AUTO_MERGE_CELLS
  }

  /** Position of cell `(i, j)` in the row-major table with rows of `w` cells. */
  function Cell(w: nat, i: nat, j: nat): nat {
    i * w + j
  }

  lemma MulMonotone(a: nat, b: nat, w: nat)
    requires a <= b
    ensures a * w <= b * w
  {
    assert b * w - a * w == (b - a) * w;
  }

  lemma CellInBounds(rows: nat, w: nat, i: nat, j: nat)
    requires i < rows && j < w
    ensures Cell(w, i, j) < rows * w
  {
    MulMonotone(i + 1, rows, w);
  }

  lemma CellInjective(w: nat, i: nat, j: nat, i': nat, j': nat)
    requires j < w && j' < w && Cell(w, i, j) == Cell(w, i', j')
    ensures i == i' && j == j'
  {
    if i < i' {
      MulMonotone(i + 1, i', w);
      assert false;
    } else if i > i' {
      MulMonotone(i' + 1, i, w);
      assert false;
    }
  }

  /** Within the cell budget a table entry fits the 32-bit cell. */
  lemma LcsFits(from: seq<Line>, to: seq<Line>, i: nat, j: nat)
    requires i <= |from| && j <= |to| && !TooLarge(from, to)
    ensures Lcs(from, to, i, j) < 0x1_0000_0000
  {
    if |from| > 0 && |to| > 0 {
      MulMonotone(1, |to|, |from|);
    }
  }

  /** Cells `(i, j)` that the fill loops have finished when they stand at `(row, col)`. */
  predicate Filled(i: nat, j: nat, row: nat, col: nat) {
    i > row || (i == row && j >= col)
  }

  ghost predicate TableUpTo(dp: array<uint32>, from: seq<Line>, to: seq<Line>, row: nat, col: nat)
    reads dp
  {
    && dp.Length == (|from| + 1) * (|to| + 1)
    && forall i: nat, j: nat {:trigger Cell(|to| + 1, i, j)} | i <= |from| && j <= |to| ::
         && Cell(|to| + 1, i, j) < dp.Length
         && (Filled(i, j, row, col) || i == |from| || j == |to| ==>
               dp[Cell(|to| + 1, i, j)] as int == Lcs(from, to, i, j))
  }

  /** Allocates the zeroed table; its last row and column are final already. */
  method NewTable(from: seq<Line>, to: seq<Line>) returns (dp: array<uint32>)
    ensures fresh(dp) && TableUpTo(dp, from, to, |from|, 0)
  {
    dp := new uint32[(|from| + 1) * (|to| + 1)](_ => 0);
    forall i: nat, j: nat {:trigger Cell(|to| + 1, i, j)} | i <= |from| && j <= |to|
      ensures Cell(|to| + 1, i, j) < dp.Length
    {
      CellInBounds(|from| + 1, |to| + 1, i, j);
    }
  }

  /** Computes one cell from its three neighbours below and to the right. */
  method FillCell(dp: array<uint32>, from: seq<Line>, to: seq<Line>, i: nat, j: nat)
    requires i < |from| && j < |to| && !TooLarge(from, to)
    requires TableUpTo(dp, from, to, i, j + 1)
    modifies dp
    ensures TableUpTo(dp, from, to, i, j)
  {
    var w := |to| + 1;
    LcsFits(from, to, i, j);
    var diag, down, right := Cell(w, i + 1, j + 1), Cell(w, i + 1, j), Cell(w, i, j + 1);
    var here := Cell(w, i, j);
    var v := if from[i] == to[j] then dp[diag] as int + 1
             else Max(dp[down] as int, dp[right] as int);
    assert v == Lcs(from, to, i, j);
    ghost var before := dp[..];
    dp[here] := v as uint32;
    forall i': nat, j': nat | i' <= |from| && j' <= |to|
      ensures Cell(w, i', j') < dp.Length
      ensures (i', j') != (i, j) ==> dp[Cell(w, i', j')] == before[Cell(w, i', j')]
    {
      CellInBounds(|from| + 1, w, i', j');
      if Cell(w, i', j') == here {
        CellInjective(w, i, j, i', j');
      }
    }
  }

  method FillTable(from: seq<Line>, to: seq<Line>) returns (dp: array<uint32>)
    requires !TooLarge(from, to)
    ensures fresh(dp) && TableUpTo(dp, from, to, 0, 0)
  {
    dp := NewTable(from, to);
    var i := |from|;
    while i > 0
      invariant 0 <= i <= |from| && TableUpTo(dp, from, to, i, 0)
    {
      i := i - 1;
      var j := |to|;
      while j > 0
        invariant 0 <= j <= |to| && TableUpTo(dp, from, to, i, j)
      {
        j := j - 1;
        FillCell(dp, from, to, i, j);
      }
    }
  }

  /** Edits still to come when a region may be open: `rest` is the script from the current cell. */
  function Pending(open: bool, start: nat, lines: seq<Line>, i: nat, rest: seq<Edit>): seq<Edit> {
    if open then Glue(start, lines, i, rest) else rest
  }

  /** A region that is already being glued absorbs another one. */
  lemma GlueGlue(start: nat, lines: seq<Line>, i: nat, more: seq<Line>, i': nat, rest: seq<Edit>)
    ensures Glue(start, lines, i, Glue(i, more, i', rest)) == Glue(start, lines + more, i', rest)
  {
    if rest != [] && rest[0].aStart == i' {
      assert lines + (more + rest[0].lines) == lines + more + rest[0].lines;
    }
  }

  /** Ends the open region, if there is one, at `i`; `rest` is what still follows. */
  method CloseRegion(edits: seq<Edit>, open: bool, start: nat, lines: seq<Line>, i: nat, ghost rest: seq<Edit>)
      returns (closed: seq<Edit>)
    requires rest != [] ==> rest[0].aStart > i
    ensures closed + rest == edits + Pending(open, start, lines, i, rest)
  {
    if open {
      closed := edits + [Edit(start, i, lines)];
      assert Pending(open, start, lines, i, rest) == [Edit(start, i, lines)] + rest;
    } else {
      closed := edits;
    }
  }

  /** Makes sure a region is open: one that is not starts at `i`.
      The edits pending before, `Glue(i, more, i', rest)`, are then glued to the open region. */
  method OpenRegion(open: bool, start: nat, lines: seq<Line>, i: nat,
                    ghost more: seq<Line>, ghost i': nat, ghost rest: seq<Edit>)
      returns (start': nat, lines': seq<Line>)
    ensures Glue(start', lines' + more, i', rest) == Pending(open, start, lines, i, Glue(i, more, i', rest))
  {
    GlueGlue(start, lines, i, more, i', rest);
    start', lines' := start, lines;
    if !open {
      start', lines' := i, [];
      assert [] + more == more;
    }
  }

  /** Once the target is used up the rest of the base is one deletion. */
  lemma {:induction false} DeleteTail(from: seq<Line>, to: seq<Line>, i: nat)
    requires i < |from|
    ensures Script(from, to, i, |to|) == [Edit(i, |from|, [])]
    decreases |from| - i
  {
    if i + 1 < |from| {
      DeleteTail(from, to, i + 1);
    } else {
      assert Script(from, to, i + 1, |to|) == [];
    }
  }

  /** Once the base is used up the rest of the target is one insertion. */
  lemma {:induction false} InsertTail(from: seq<Line>, to: seq<Line>, j: nat)
    requires j < |to|
    ensures Script(from, to, |from|, j) == [Edit(|from|, |from|, to[j..])]
    decreases |to| - j
  {
    assert to[j..] == [to[j]] + to[j + 1..];
    if j + 1 < |to| {
      InsertTail(from, to, j + 1);
    } else {
      assert Script(from, to, |from|, j + 1) == [];
      assert to[j..] == [to[j]];
    }
  }

  /** The edits of one text against another, unless the table would be too large. */
  method DiffLines(from: seq<Line>, to: seq<Line>) returns (edits: seq<Edit>, ok: bool)
    ensures ok == !TooLarge(from, to)
    ensures edits == if ok then Edits(from, to) else []
  {
    edits, ok := [], true;
    var n, m := |from|, |to|;
    if n == 0 && m == 0 {
      return;
    }
    if n > 0 && m > 0 && n * m > MAX_AUTO_MERGE_CELLS {
      ok := false;
      return;
    }
    var dp := FillTable(from, to);
    edits := Backtrack(dp, from, to);
  }

  /** Deleting a base line loses nothing against inserting a target line. */
  predicate PreferDelete(dp: array<uint32>, from: seq<Line>, to: seq<Line>, i: nat, j: nat)
    requires TableUpTo(dp, from, to, 0, 0)
    requires i < |from| && j < |to| && from[i] != to[j]
    reads dp
    ensures PreferDelete(dp, from, to, i, j) <==> NextMove(from, to, i, j) == Delete
  {
    hide Lcs;
    dp[Cell(|to| + 1, i + 1, j)] >= dp[Cell(|to| + 1, i, j + 1)]
  }

  lemma StartScript(from: seq<Line>, to: seq<Line>)
    ensures [] + Script(from, to, 0, 0) == Edits(from, to)
  {
  }

  method Backtrack(dp: array<uint32>, from: seq<Line>, to: seq<Line>) returns (edits: seq<Edit>)
    requires TableUpTo(dp, from, to, 0, 0)
    ensures edits == Edits(from, to)
  {
    hide Script, Lcs, Glue, WellFormed, Edits, TableUpTo, PreferDelete;
    StartScript(from, to);
    var n, m := |from|, |to|;
    edits := [];
    var i, j := 0, 0;
    var open, start, lines := false, 0, [];
    while i < n && j < m
      invariant 0 <= i <= n && 0 <= j <= m && 0 <= start
      invariant edits + Pending(open, start, lines, i, Script(from, to, i, j)) == Edits(from, to)
      decreases n - i + m - j
    {
      ScriptStep(from, to, i, j);
      if from[i] == to[j] {
        edits := CloseRegion(edits, open, start, lines, i, Script(from, to, i + 1, j + 1));
        open, lines := false, [];
        i, j := i + 1, j + 1;
      } else if PreferDelete(dp, from, to, i, j) {
        start, lines := OpenRegion(open, start, lines, i, [], i + 1, Script(from, to, i + 1, j));
        assert lines + [] == lines;
        open := true;
        i := i + 1;
      } else {
        start, lines := OpenRegion(open, start, lines, i, [to[j]], i, Script(from, to, i, j + 1));
        open := true;
        lines := lines + [to[j]];
        j := j + 1;
      }
    }
    i, open, start, lines := ReadRest(from, to, i, j, open, start, lines);
    edits := CloseRegion(edits, open, start, lines, i, []);
    assert edits + [] == edits;
  }

  /** After one text is used up: what is left of the other goes into the open region. */
  method ReadRest(from: seq<Line>, to: seq<Line>, i0: nat, j: nat, open0: bool, start0: nat, lines0: seq<Line>)
      returns (i: nat, open: bool, start: nat, lines: seq<Line>)
    requires i0 <= |from| && j <= |to| && (i0 == |from| || j == |to|)
    ensures Pending(open, start, lines, i, []) == Pending(open0, start0, lines0, i0, Script(from, to, i0, j))
  {
    var n, m := |from|, |to|;
    i, open, start, lines := i0, open0, start0, lines0;
    if i < n {
      DeleteTail(from, to, i);
      start, lines := OpenRegion(open, start, lines, i, [], n, []);
      open := true;
      assert Glue(i, [], n, []) == [Edit(i, n, [])] && lines + [] == lines;
      i := n;
    } else if j < m {
      InsertTail(from, to, j);
      start, lines := OpenRegion(open, start, lines, i, to[j..], n, []);
      open := true;
      assert Glue(n, to[j..], n, []) == [Edit(n, n, to[j..])];
      lines := AppendFrom(lines, to, j);
    }
  }

  method AppendFrom(lines: seq<Line>, to: seq<Line>, j: nat) returns (longer: seq<Line>)
    requires j <= |to|
    ensures longer == lines + to[j..]
  {
    longer := lines;
    for k := j to |to|
      invariant longer == lines + to[j..k]
    {
      longer := longer + [to[k]];
    }
    assert to[j..|to|] == to[j..];
  }
}
