/** What the three-way merge guarantees. */
module MergeLaws {
  import opened Basics
  import opened Lines
  import opened Diff
  import opened Merge

  // ---- regions differ from the base where a side edits them ----

  /** A side edits a region exactly when its text for the region is not the base's. */
  ghost predicate Honest(c: Chunk) {
    c.Region? ==>
      && (c.editsL == [] <==> c.repL == c.was)
      && (c.editsR == [] <==> c.repR == c.was)
      && (c.editsL != [] || c.editsR != [])
  }

  /** `es` is the part of the script for `to` that starts at or after `pos`. */
  ghost predicate RestOfScript(base: seq<Line>, to: seq<Line>, pos: nat, done: seq<Edit>, es: seq<Edit>) {
    && Edits(base, to) == done + es && pos <= |base|
    && WellFormed(done, 0, pos) && WellFormed(es, pos, |base|)
  }

  lemma {:induction false} AppendWellFormed(a: seq<Edit>, m: seq<Edit>, b: seq<Edit>,
                                            lo: nat, mid: nat, hi: nat, n: nat)
    requires lo <= mid <= hi && WellFormed(a, lo, mid) && WellFormed(m, mid, hi) && WellFormed(a + m + b, lo, n)
    ensures WellFormed(a + m, lo, hi)
  {
    if a == [] {
      assert a + m == m;
    } else {
      var whole, front := a + m + b, a + m;
      assert whole[1..] == a[1..] + m + b;
      AppendWellFormed(a[1..], m, b, a[0].aEnd, mid, hi, n);
      assert front[1..] == a[1..] + m;
      assert front[0] == a[0];
      if |front| > 1 {
        assert whole[1] == front[1] && whole[0] == a[0];
      }
    }
  }

  /** The edits of one side that a region takes in change the region's text. */
  lemma SideChanges(base: seq<Line>, to: seq<Line>, pos: nat, done: seq<Edit>, es: seq<Edit>,
                    start: nat, end: nat, n: nat)
    requires RestOfScript(base, to, pos, done, es) && n <= |es| && pos <= start <= end <= |base|
    requires WellFormed(es[..n], start, end) && WellFormed(es[n..], end, |base|)
    ensures es[..n] == [] <==> Render(base, start, end, es[..n]) == base[start..end]
    ensures RestOfScript(base, to, end, done + es[..n], es[n..])
  {
    hide Render, Edits;
    SplitAppend(done, es, n);
    WidenWellFormed(done, 0, pos, start);
    AppendWellFormed(done, es[..n], es[n..], 0, start, end, |base|);
    if es[..n] != [] {
      EditedStretchDiffers(base, to, start, end, done, es[..n], es[n..]);
    } else {
      RenderNothing(base, start, end);
    }
  }

  lemma SplitAppend(done: seq<Edit>, es: seq<Edit>, n: nat)
    requires n <= |es|
    ensures done + es[..n] + es[n..] == done + es
    ensures (done + es[..n]) + es[n..] == done + es
  {
    assert es[..n] + es[n..] == es;
  }

  lemma {:induction false} WidenWellFormed(es: seq<Edit>, lo: nat, hi: nat, hi': nat)
    requires WellFormed(es, lo, hi) && hi <= hi'
    ensures WellFormed(es, lo, hi')
  {
    if es != [] {
      WidenWellFormed(es[1..], es[0].aEnd, hi, hi');
    }
  }

  lemma {:induction false} ChunksHonest(base: seq<Line>, local: seq<Line>, remote: seq<Line>, pos: nat,
                                        doneL: seq<Edit>, eL: seq<Edit>, doneR: seq<Edit>, eR: seq<Edit>)
    requires RestOfScript(base, local, pos, doneL, eL) && RestOfScript(base, remote, pos, doneR, eR)
    ensures Overlay(base, pos, eL, eR)
    ensures forall c <- Chunks(base, pos, eL, eR) :: Honest(c)
    decreases |eL| + |eR|
  {
    hide FoldFrom, Chunks, Render, WellFormed, RestOfScript;
    assert Overlay(base, pos, eL, eR) by {
      UnpackRest(base, local, pos, doneL, eL);
      UnpackRest(base, remote, pos, doneR, eR);
    }
    if eL == [] && eR == [] {
      LastChunk(base, pos);
    } else {
      ChunksUnfold(base, pos, eL, eR);
      var start := NextStart(eL, eR);
      var g := FoldFrom(eL, eR, start);
      SideChanges(base, local, pos, doneL, eL, start, g.end, g.nL);
      SideChanges(base, remote, pos, doneR, eR, start, g.end, g.nR);
      ChunksHonest(base, local, remote, g.end,
                   doneL + eL[..g.nL], eL[g.nL..], doneR + eR[..g.nR], eR[g.nR..]);
      assert Honest(RegionAt(base, start, g.end, eL[..g.nL], eR[..g.nR]));
    }
  }

  lemma UnpackRest(base: seq<Line>, to: seq<Line>, pos: nat, done: seq<Edit>, es: seq<Edit>)
    requires RestOfScript(base, to, pos, done, es)
    ensures pos <= |base| && WellFormed(es, pos, |base|)
  {
  }

  /** The textbook rule, by content alone: equal sides agree, else the side that differs from the base wins. */
  function Diff3(was: seq<Line>, l: seq<Line>, r: seq<Line>): Option<seq<Line>> {
    if l == r then Some(l)
    else if r == was then Some(l)
    else if l == was then Some(r)
    else None
  }

  lemma HonestFollowsDiff3(c: Chunk)
    requires Honest(c) && c.Region?
    ensures Decide(c) == Diff3(c.was, c.repL, c.repR) && !(c.was == c.repL == c.repR)
  {
  }

  lemma AllHonest(base: seq<Line>, local: seq<Line>, remote: seq<Line>)
    ensures forall c <- ChunksOf(base, local, remote) :: Honest(c)
  {
    hide Chunks, Edits, Honest;
    var eL, eR := Edits(base, local), Edits(base, remote);
    assert [] + eL == eL && [] + eR == eR;
    ChunksHonest(base, local, remote, 0, [], eL, [], eR);
  }

  /** The sweep decides every region by the textbook rule, and every region is changed by some side. */
  lemma RegionsFollowDiff3(base: seq<Line>, local: seq<Line>, remote: seq<Line>)
    ensures forall c <- ChunksOf(base, local, remote) ::
              c.Region? ==> Decide(c) == Diff3(c.was, c.repL, c.repR) && !(c.was == c.repL == c.repR)
  {
    hide ChunksOf, Honest, Decide, Diff3;
    AllHonest(base, local, remote);
    forall c <- ChunksOf(base, local, remote) | c.Region?
      ensures Decide(c) == Diff3(c.was, c.repL, c.repR) && !(c.was == c.repL == c.repR)
    {
      HonestFollowsDiff3(c);
    }
  }

  lemma {:induction false} HunkSources(cs: seq<Chunk>)
    ensures forall h <- Hunks(cs) :: exists c <- cs ::
              c.Region? && Decide(c).None? && h == Hunk(c.repL, c.repR)
  {
    if cs != [] {
      HunkSources(cs[1..]);
      forall h <- Hunks(cs)
        ensures exists c <- cs :: c.Region? && Decide(c).None? && h == Hunk(c.repL, c.repR)
      {
        if h in Hunks(cs[1..]) {
          var c :| c in cs[1..] && c.Region? && Decide(c).None? && h == Hunk(c.repL, c.repR);
          assert c in cs;
        } else {
          assert cs[0] in cs;
        }
      }
    }
  }

  /** In every reported hunk the base, the local and the remote text are pairwise different. */
  lemma HunksAreRealConflicts(base: seq<Line>, local: seq<Line>, remote: seq<Line>)
    ensures forall h <- Hunks(ChunksOf(base, local, remote)) ::
              h.localLines != h.remoteLines &&
              exists c <- ChunksOf(base, local, remote) ::
                && c.Region? && c.repL == h.localLines && c.repR == h.remoteLines
                && c.was != h.localLines && c.was != h.remoteLines
  {
    hide ChunksOf, Hunks;
    HunkSources(ChunksOf(base, local, remote));
    RegionsFollowDiff3(base, local, remote);
  }

  /** The three texts are recovered from the chunks, each script is used up edit by edit,
      and every line of the outcome is a stable line or the side the textbook rule picks. */
  lemma MergeDecomposes(base: seq<Line>, local: seq<Line>, remote: seq<Line>)
    ensures var cs := ChunksOf(base, local, remote);
            && Text(cs, Base) == base && Text(cs, Left) == local && Text(cs, Right) == remote
            && ScriptOf(cs, Left) == Edits(base, local) && ScriptOf(cs, Right) == Edits(base, remote)
  {
    hide Edits, Render, Chunks;
    ChunksDecompose(base, 0, Edits(base, local), Edits(base, remote));
    EditsAreOptimal(base, local);
    EditsAreOptimal(base, remote);
    assert base[0..] == base;
  }

  /** With no conflict every region has a choice, so the merged lines leave no chunk out. */
  lemma {:induction false} CleanChoosesEverywhere(cs: seq<Chunk>)
    ensures Hunks(cs) == [] <==> forall c <- cs :: c.Region? ==> Decide(c).Some?
  {
    if cs != [] {
      CleanChoosesEverywhere(cs[1..]);
      assert cs == [cs[0]] + cs[1..];
    }
  }

  // ---- symmetry ----

  function MirrorChunk(c: Chunk): Chunk {
    match c
    case Stable(lines) => c
    case Region(was, eL, eR, repL, repR) => Region(was, eR, eL, repR, repL)
  }

  function MirrorChunks(cs: seq<Chunk>): seq<Chunk> {
    if cs == [] then [] else [MirrorChunk(cs[0])] + MirrorChunks(cs[1..])
  }

  function MirrorHunks(hs: seq<Hunk>): (r: seq<Hunk>)
    ensures |r| == |hs|
    ensures forall i :: 0 <= i < |hs| ==> r[i] == Hunk(hs[i].remoteLines, hs[i].localLines)
  {
    if hs == [] then [] else [Hunk(hs[0].remoteLines, hs[0].localLines)] + MirrorHunks(hs[1..])
  }

  lemma MirrorTwo(a: Chunk, b: Chunk, cs: seq<Chunk>)
    ensures MirrorChunks([a, b] + cs) == [MirrorChunk(a), MirrorChunk(b)] + MirrorChunks(cs)
  {
    assert ([a, b] + cs)[1..] == [b] + cs && ([b] + cs)[1..] == cs;
  }

  lemma {:induction false} ChunksMirror(base: seq<Line>, pos: nat, eL: seq<Edit>, eR: seq<Edit>)
    requires Overlay(base, pos, eL, eR)
    ensures Chunks(base, pos, eR, eL) == MirrorChunks(Chunks(base, pos, eL, eR))
    decreases |eL| + |eR|
  {
    hide FoldFrom, Chunks, Render, WellFormed;
    if eL == [] && eR == [] {
      LastChunk(base, pos);
      assert [Stable(base[pos..])][1..] == [];
    } else {
      ChunksUnfold(base, pos, eL, eR);
      ChunksUnfold(base, pos, eR, eL);
      var start := NextStart(eL, eR);
      var g := FoldFrom(eL, eR, start);
      FoldSymmetric(eL, eR, start, start, |base|);
      ChunksMirror(base, g.end, eL[g.nL..], eR[g.nR..]);
      MirrorTwo(Stable(base[pos..start]), RegionAt(base, start, g.end, eL[..g.nL], eR[..g.nR]),
                Chunks(base, g.end, eL[g.nL..], eR[g.nR..]));
    }
  }

  lemma {:induction false} MirrorOutcome(cs: seq<Chunk>)
    requires forall c <- cs :: Honest(c)
    ensures Text(MirrorChunks(cs), Merged) == Text(cs, Merged)
    ensures Hunks(MirrorChunks(cs)) == MirrorHunks(Hunks(cs))
  {
    if cs != [] {
      hide Pick, Decide;
      assert forall c <- cs[1..] :: c in cs;
      MirrorOutcome(cs[1..]);
      assert Honest(cs[0]);
      MirrorChoice(cs[0]);
      var m := MirrorChunks(cs);
      assert m[1..] == MirrorChunks(cs[1..]);
      MirrorHunksCons(if cs[0].Region? && Decide(cs[0]).None? then [Hunk(cs[0].repL, cs[0].repR)] else [],
                      Hunks(cs[1..]));
    }
  }

  lemma MirrorChoice(c: Chunk)
    requires Honest(c)
    ensures Pick(MirrorChunk(c), Merged) == Pick(c, Merged)
    ensures c.Region? ==> (Decide(MirrorChunk(c)).None? <==> Decide(c).None?)
  {
  }

  lemma MirrorHunksCons(first: seq<Hunk>, rest: seq<Hunk>)
    requires |first| <= 1
    ensures MirrorHunks(first + rest) ==
            (if first == [] then [] else [Hunk(first[0].remoteLines, first[0].localLines)]) + MirrorHunks(rest)
  {
    if first == [] {
      assert first + rest == rest;
    } else {
      assert (first + rest)[1..] == rest;
    }
  }

  function MirrorResult(r: MergeResult): MergeResult { r.(hunks := MirrorHunks(r.hunks)) }

  lemma ChunksOfMirror(b: seq<Line>, l: seq<Line>, r: seq<Line>)
    ensures ChunksOf(b, r, l) == MirrorChunks(ChunksOf(b, l, r))
    ensures Text(ChunksOf(b, r, l), Merged) == Text(ChunksOf(b, l, r), Merged)
    ensures Hunks(ChunksOf(b, r, l)) == MirrorHunks(Hunks(ChunksOf(b, l, r)))
  {
    hide Chunks, Edits, Text, Hunks, Honest, MirrorChunks, MirrorHunks;
    var eL, eR := Edits(b, l), Edits(b, r);
    AllHonest(b, l, r);
    ChunksMirror(b, 0, eL, eR);
    MirrorOutcome(Chunks(b, 0, eL, eR));
  }

  /** Swapping local and remote keeps the verdict and the text and mirrors every hunk. */
  lemma MergeSymmetric(base: string, local: string, remote: string)
    ensures MergeTexts(base, remote, local) == MirrorResult(MergeTexts(base, local, remote))
  {
    hide ChunksOf, Text, Hunks, TooLarge, LinesOf, EolOf, Join, MirrorChunks;
    var b, l, r := LinesOf(base), LinesOf(local), LinesOf(remote);
    ChunksOfMirror(b, l, r);
    assert |MirrorHunks(Hunks(ChunksOf(b, l, r)))| == |Hunks(ChunksOf(b, l, r))|;
  }

  // ---- the whole merge ----

  /** The merged lines by the textbook rule; a region in conflict contributes nothing. */
  function Diff3Lines(cs: seq<Chunk>): seq<Line> {
    if cs == [] then []
    else
      (match cs[0]
       case Stable(lines) => lines
       case Region(was, _, _, l, r) => if Diff3(was, l, r).Some? then Diff3(was, l, r).value else [])
      + Diff3Lines(cs[1..])
  }

  /** The regions that the textbook rule leaves in conflict. */
  function Diff3Hunks(cs: seq<Chunk>): seq<Hunk> {
    if cs == [] then []
    else
      (match cs[0]
       case Stable(_) => []
       case Region(was, _, _, l, r) => if Diff3(was, l, r).Some? then [] else [Hunk(l, r)])
      + Diff3Hunks(cs[1..])
  }

  lemma {:induction false} OutcomeFollowsDiff3(cs: seq<Chunk>)
    requires forall c <- cs :: Honest(c)
    ensures Text(cs, Merged) == Diff3Lines(cs) && Hunks(cs) == Diff3Hunks(cs)
  {
    hide Honest;
    if cs != [] {
      assert forall c <- cs[1..] :: c in cs;
      OutcomeFollowsDiff3(cs[1..]);
      if cs[0].Region? {
        HonestFollowsDiff3(cs[0]);
      }
    }
  }

  /** No two of the three texts are equal, so the merge sweeps. */
  predicate Sweeps(base: string, local: string, remote: string) {
    local != remote && local != base && remote != base
  }

  /** The merge of any three texts. Equal sides give that text, and a side that left the base alone gives the other
      side verbatim, both without conflict. Three different texts are compared line by line, unless that would take
      more than 16 million cells on a side: the merge is clean exactly when the textbook rule decides every region,
      and then is what the rule says, in the base's line ends; else it reports exactly the undecided regions. */
  lemma MergeMeans(base: string, local: string, remote: string)
    ensures var m := MergeTexts(base, local, remote);
            var b, l, r := LinesOf(base), LinesOf(local), LinesOf(remote);
            var cs := ChunksOf(b, l, r);
            && (local == remote ==> m == MergeResult(true, local, []) && m.merged == remote)
            && (local == base ==> m == MergeResult(true, remote, []))
            && (remote == base ==> m == MergeResult(true, local, []))
            && (Sweeps(base, local, remote) ==>
                  && (|b| * |l| > 16_000_000 || |b| * |r| > 16_000_000 ==> m == MergeResult(false, "", []))
                  && (|b| * |l| <= 16_000_000 && |b| * |r| <= 16_000_000 ==>
                        && (m.clean <==> forall c <- cs :: c.Region? ==> Diff3(c.was, c.repL, c.repR).Some?)
                        && m.merged == (if m.clean then Join(Diff3Lines(cs), EolOf(base)) else "")
                        && m.hunks == Diff3Hunks(cs)))
  {
    hide ChunksOf, Text, Hunks, LinesOf, EolOf, Join, Diff3Lines, Diff3Hunks, Decide, Diff3;
    var b, l, r := LinesOf(base), LinesOf(local), LinesOf(remote);
    AllHonest(b, l, r);
    OutcomeFollowsDiff3(ChunksOf(b, l, r));
    RegionsFollowDiff3(b, l, r);
    CleanChoosesEverywhere(ChunksOf(b, l, r));
    FitsMeans(b, l);
    FitsMeans(b, r);
  }

  lemma FitsMeans(from: seq<Line>, to: seq<Line>)
    ensures TooLarge(from, to) <==> |from| * |to| > 16_000_000
  {
    if from == [] || to == [] {
      assert |from| * |to| == 0;
    }
  }

  // ---- reading a swept text back ----

  lemma {:induction false} PickFromSides(cs: seq<Chunk>)
    ensures forall x <- Text(cs, Merged) :: x in Text(cs, Left) || x in Text(cs, Right)
  {
    if cs != [] {
      PickFromSides(cs[1..]);
    }
  }

  /** A clean swept text splits back into its merged lines exactly when the base uses CRLF
      or no merged line ends in a CR. */
  lemma SweptTextReadsBack(base: string, local: string, remote: string)
    ensures var cs := ChunksOf(LinesOf(base), LinesOf(local), LinesOf(remote));
            var merged := Text(cs, Merged);
            LinesOf(Join(merged, EolOf(base))) == merged <==>
            (EolOf(base) == CRLF || forall x <- merged :: !EndsInCr(x))
  {
    hide ChunksOf, Text, Join;
    var b, l, r := LinesOf(base), LinesOf(local), LinesOf(remote);
    var cs := ChunksOf(b, l, r);
    MergeDecomposes(b, l, r);
    PickFromSides(cs);
    LinesHaveNoNewline(local, []);
    LinesHaveNoNewline(remote, []);
    JoinSplitRoundTrip(Text(cs, Merged), EolOf(base));
  }

  lemma SweptText(base: string, local: string, remote: string)
    requires Sweeps(base, local, remote) && MergeTexts(base, local, remote).clean
    ensures MergeTexts(base, local, remote).merged
            == Join(Text(ChunksOf(LinesOf(base), LinesOf(local), LinesOf(remote)), Merged), EolOf(base))
  {
    hide ChunksOf, Text, Hunks, TooLarge, LinesOf, EolOf, Join;
  }

  /** A clean merge splits back into its merged lines whenever the base uses CRLF, or no line of either side
      ends in a CR. */
  lemma PlainSidesReadBack(base: string, local: string, remote: string)
    requires EolOf(base) == CRLF
             || ((forall x <- LinesOf(local) :: !EndsInCr(x)) && (forall x <- LinesOf(remote) :: !EndsInCr(x)))
    ensures Sweeps(base, local, remote) && MergeTexts(base, local, remote).clean ==>
              LinesOf(MergeTexts(base, local, remote).merged)
              == Text(ChunksOf(LinesOf(base), LinesOf(local), LinesOf(remote)), Merged)
  {
    hide ChunksOf, Text, Join, MergeTexts;
    SweptTextReadsBack(base, local, remote);
    MergeDecomposes(LinesOf(base), LinesOf(local), LinesOf(remote));
    PickFromSides(ChunksOf(LinesOf(base), LinesOf(local), LinesOf(remote)));
    if Sweeps(base, local, remote) && MergeTexts(base, local, remote).clean {
      SweptText(base, local, remote);
    }
  }

  /** An input whose clean merge does not read back: LF ends and an unchanged last line that ends in CR. */
  lemma ReadBackCanFail()
    ensures var base, local, remote := "b\na\r", "x\nb\na\r", "b\ny\na\r";
            && MergeTexts(base, local, remote) == MergeResult(true, "x\nb\ny\na\r\n", [])
            && Text(ChunksOf(LinesOf(base), LinesOf(local), LinesOf(remote)), Merged) == ["x", "b", "y", "a\r"]
            && LinesOf("x\nb\ny\na\r\n") == ["x", "b", "y", "a"]
  {
    hide ChunksOf, LinesOf, Join, Text, Hunks, CountEnds, ExampleResult;
    ExampleLines();
    ExampleChunks("b", "a\r", "x", "y");
    ExampleText("b", "a\r", "x", "y");
    ExampleJoin();
  }

  lemma ExampleLines()
    ensures LinesOf("b\na\r") == ["b", "a\r"] && EolOf("b\na\r") == LF
    ensures LinesOf("x\nb\na\r") == ["x", "b", "a\r"]
    ensures LinesOf("b\ny\na\r") == ["b", "y", "a\r"]
    ensures LinesOf("x\nb\ny\na\r\n") == ["x", "b", "y", "a"]
  {
    hide LinesFrom;
    ReadLast("a\r");
    ReadLine("b", "a\r");
    assert "b" + LF + "a\r" == "b\na\r";
    ReadLine("x", "b\na\r");
    assert "x" + LF + "b\na\r" == "x\nb\na\r";
    ReadLine("y", "a\r");
    assert "y" + LF + "a\r" == "y\na\r";
    ReadLine("b", "y\na\r");
    assert "b" + LF + "y\na\r" == "b\ny\na\r";
    ReadLast("");
    ReadLine("a\r", "");
    assert "a\r" + LF + "" == "a\r\n";
    assert StripCr("a\r") == "a";
    ReadLine("y", "a\r\n");
    assert "y" + LF + "a\r\n" == "y\na\r\n";
    ReadLine("b", "y\na\r\n");
    assert "b" + LF + "y\na\r\n" == "b\ny\na\r\n";
    ReadLine("x", "b\ny\na\r\n");
    assert "x" + LF + "b\ny\na\r\n" == "x\nb\ny\na\r\n";
    CountStretch("b", "\na\r", false);
    assert "b" + "\na\r" == "b\na\r";
    CountStretch("a\r", "", false);
    assert "\na\r"[1..] == "a\r" + "";
  }

  lemma ReadLast(l: string)
    requires '\n' !in l
    ensures LinesOf(l) == if l == [] then [] else [l]
  {
    ReadStretch(l, [], []);
    assert l + [] == l && [] + l == l;
  }

  lemma ExampleFolds(x: Line, y: Line)
    ensures var eL, eR := [Edit(0, 0, [x])], [Edit(1, 1, [y])];
            && FoldFrom(eL, eR, 0) == Fold(0, 1, 0) && FoldFrom([], eR, 1) == Fold(1, 0, 1)
            && eL[..1] == eL && eL[1..] == [] && eR[..0] == [] && eR[0..] == eR && eR[..1] == eR && eR[1..] == []
  {
    var eL, eR := [Edit(0, 0, [x])], [Edit(1, 1, [y])];
    assert eL[1..] == [] && eR[1..] == [];
    assert FoldFrom([], eR, 0) == Fold(0, 0, 0);
    assert FoldFrom([], [], 1) == Fold(1, 0, 0);
  }

  /** The chunks when local puts `x` before the base `[p, q]` and remote puts `y` in its middle. */
  function ExampleResult(p: Line, q: Line, x: Line, y: Line): seq<Chunk> {
    [Stable([]), Region([], [Edit(0, 0, [x])], [], [x], []),
     Stable([p]), Region([], [], [Edit(1, 1, [y])], [], [y]), Stable([q])]
  }

  lemma ExampleTail(p: Line, q: Line, x: Line, y: Line)
    ensures Overlay([p, q], 0, [], [Edit(1, 1, [y])])
    ensures Chunks([p, q], 0, [], [Edit(1, 1, [y])]) ==
            [Stable([p]), Region([], [], [Edit(1, 1, [y])], [], [y]), Stable([q])]
  {
    hide FoldFrom, Chunks, RegionAt;
    ExampleFolds(x, y);
    ExampleRegions(p, q, x, y);
    var eR := [Edit(1, 1, [y])];
    assert eR[1..] == [] && |eR[0].lines| == 1;
    assert WellFormed(eR, 0, 2);
    LastChunk([p, q], 1);
    ChunksUnfold([p, q], 0, [], [Edit(1, 1, [y])]);
  }

  lemma ExampleChunks(p: Line, q: Line, x: Line, y: Line)
    requires p != q && x != p && x != q && y != p && y != q
    ensures ChunksOf([p, q], [x, p, q], [p, y, q]) == ExampleResult(p, q, x, y)
  {
    hide FoldFrom, Edits, Chunks, RegionAt;
    ExampleEdits(p, q, x, y);
    ExampleFolds(x, y);
    ExampleRegions(p, q, x, y);
    ExampleTail(p, q, x, y);
    ChunksUnfold([p, q], 0, [Edit(0, 0, [x])], [Edit(1, 1, [y])]);
  }

  lemma ExampleRegions(p: Line, q: Line, x: Line, y: Line)
    ensures RegionAt([p, q], 0, 0, [Edit(0, 0, [x])], []) == Region([], [Edit(0, 0, [x])], [], [x], [])
    ensures RegionAt([p, q], 1, 1, [], [Edit(1, 1, [y])]) == Region([], [], [Edit(1, 1, [y])], [], [y])
    ensures [p, q][0..0] == [] && [p, q][0..1] == [p] && [p, q][1..] == [q]
  {
    var b := [p, q];
    assert [Edit(0, 0, [x])][1..] == [] && [Edit(1, 1, [y])][1..] == [];
    assert Render(b, 0, 0, []) == b[0..0] == [] && Render(b, 1, 1, []) == b[1..1] == [];
  }

  lemma ExampleEdits(p: Line, q: Line, x: Line, y: Line)
    requires p != q && x != p && x != q && y != p && y != q
    ensures Edits([p, q], [x, p, q]) == [Edit(0, 0, [x])] && Edits([p, q], [p, y, q]) == [Edit(1, 1, [y])]
  {
    var b, l, r := [p, q], [x, p, q], [p, y, q];
    assert Lcs(b, l, 1, 2) == 1;
    assert Lcs(b, l, 1, 1) == 1;
    assert Lcs(b, l, 1, 0) == 1 && Lcs(b, l, 0, 1) == 2;
    assert Script(b, l, 1, 2) == Script(b, l, 2, 3) == [];
    assert Script(b, l, 0, 1) == [];
    assert Lcs(b, r, 2, 1) == 0 && Lcs(b, r, 1, 2) == 1;
    assert Script(b, r, 1, 2) == Script(b, r, 2, 3) == [];
    assert Script(b, r, 1, 1) == [Edit(1, 1, [y])];
  }

  lemma ExampleText(p: Line, q: Line, x: Line, y: Line)
    ensures Text(ExampleResult(p, q, x, y), Merged) == [x, p, y, q] && Hunks(ExampleResult(p, q, x, y)) == []
  {
    hide Text, Hunks;
    var c0, c1 := Stable([]), Region([], [Edit(0, 0, [x])], [], [x], []);
    var c2, c3, c4 := Stable([p]), Region([], [], [Edit(1, 1, [y])], [], [y]), Stable([q]);
    assert [q][0..] == [q];
    LastChunk([q], 0);
    TwoChunks(c2, c3, [c4], Merged);
    TwoChunks(c0, c1, [c2, c3] + [c4], Merged);
    assert [c0, c1] + ([c2, c3] + [c4]) == ExampleResult(p, q, x, y);
    assert [] + [x] + ([p] + [y] + [q]) == [x, p, y, q];
  }

  lemma ExampleJoin()
    ensures Join(["x", "b", "y", "a\r"], LF) == "x\nb\ny\na\r\n"
  {
    assert ["a\r"][1..] == [] && ["y", "a\r"][1..] == ["a\r"];
    assert ["b", "y", "a\r"][1..] == ["y", "a\r"] && ["x", "b", "y", "a\r"][1..] == ["b", "y", "a\r"];
    assert Join(["a\r"], LF) == "a\r\n";
    assert Join(["y", "a\r"], LF) == "y\na\r\n";
    assert Join(["b", "y", "a\r"], LF) == "b\ny\na\r\n";
  }
}
