/** Line-based three-way merge: two edit scripts over one base, folded into regions. */
module Merge {
  import opened Basics
  import opened Lines
  import opened Diff

  // ---- folding touching edits into one region ----

  /** A region end, and how many edits of each script the region takes in. */
  datatype Fold = Fold(end: nat, nL: nat, nR: nat)

  /** Absorbs, starting from a region that reaches `r`, every edit that starts inside or at its end. */
  function FoldFrom(eL: seq<Edit>, eR: seq<Edit>, r: nat): (g: Fold)
    ensures g.nL <= |eL| && g.nR <= |eR| && r <= g.end
    decreases |eL| + |eR|
  {
    if eL != [] && eL[0].aStart <= r then
      var g := FoldFrom(eL[1..], eR, Max(r, eL[0].aEnd));
      g.(nL := g.nL + 1)
    else if eR != [] && eR[0].aStart <= r then
      var g := FoldFrom(eL, eR[1..], Max(r, eR[0].aEnd));
      g.(nR := g.nR + 1)
    else Fold(r, 0, 0)
  }

  /** No edit sticks out of a region that ends at `r`. */
  ghost predicate Closed(es: seq<Edit>, r: nat) {
    forall e <- es :: e.aStart <= r ==> e.aEnd <= r
  }

  ghost predicate BothClosed(eL: seq<Edit>, eR: seq<Edit>, r: nat) {
    Closed(eL, r) && Closed(eR, r)
  }

  /** `n` is the number of edits that start at or before `r`. */
  ghost predicate Counts(es: seq<Edit>, r: nat, n: nat) {
    && n <= |es|
    && (forall k :: 0 <= k < n ==> es[k].aStart <= r)
    && (forall k :: n <= k < |es| ==> es[k].aStart > r)
  }

  /** What a fold cuts off one script: a part inside the region and a part beyond it. */
  predicate Cuts(es: seq<Edit>, lo: nat, n: nat, end: nat, hi: nat) {
    && n <= |es| && lo <= end <= hi
    && WellFormed(es[..n], lo, end)
    && WellFormed(es[n..], end, hi)
    && (n < |es| ==> es[n].aStart > end)
  }

  lemma CutNone(es: seq<Edit>, lo: nat, r: nat, hi: nat)
    requires WellFormed(es, lo, hi) && lo <= r <= hi && (es != [] ==> es[0].aStart > r)
    ensures Cuts(es, lo, 0, r, hi)
  {
    assert es[..0] == [] && es[0..] == es;
  }

  lemma CutOneMore(es: seq<Edit>, lo: nat, n: nat, end: nat, hi: nat)
    requires es != [] && WellFormed(es, lo, hi) && Cuts(es[1..], es[0].aEnd, n, end, hi)
    ensures Cuts(es, lo, n + 1, end, hi)
  {
    assert es[..n + 1] == [es[0]] + es[1..][..n];
    assert es[..n + 1][1..] == es[1..][..n];
    assert es[n + 1..] == es[1..][n..];
  }

  lemma {:induction false} FoldCuts(eL: seq<Edit>, eR: seq<Edit>, loL: nat, loR: nat, r: nat, hi: nat)
    requires WellFormed(eL, loL, hi) && WellFormed(eR, loR, hi) && loL <= r && loR <= r && r <= hi
    ensures var g := FoldFrom(eL, eR, r);
            Cuts(eL, loL, g.nL, g.end, hi) && Cuts(eR, loR, g.nR, g.end, hi)
    decreases |eL| + |eR|
  {
    hide Cuts;
    if eL != [] && eL[0].aStart <= r {
      FoldCuts(eL[1..], eR, eL[0].aEnd, loR, Max(r, eL[0].aEnd), hi);
      CutOneMore(eL, loL, FoldFrom(eL[1..], eR, Max(r, eL[0].aEnd)).nL, FoldFrom(eL, eR, r).end, hi);
    } else if eR != [] && eR[0].aStart <= r {
      FoldCuts(eL, eR[1..], loL, eR[0].aEnd, Max(r, eR[0].aEnd), hi);
      CutOneMore(eR, loR, FoldFrom(eL, eR[1..], Max(r, eR[0].aEnd)).nR, FoldFrom(eL, eR, r).end, hi);
    } else {
      CutNone(eL, loL, r, hi);
      CutNone(eR, loR, r, hi);
    }
  }

  /** After the cut nothing sticks out, and the cut is at the count of edits that start inside. */
  lemma CutsClosed(es: seq<Edit>, lo: nat, n: nat, end: nat, hi: nat)
    requires Cuts(es, lo, n, end, hi)
    ensures Closed(es, end) && Counts(es, end, n)
  {
    WellFormedMeans(es[..n], lo, end);
    WellFormedMeans(es[n..], end, hi);
    forall k | 0 <= k < |es|
      ensures if k < n then es[k].aStart <= es[k].aEnd <= end else es[k].aStart > end
    {
      if k < n {
        assert es[k] == es[..n][k];
      } else {
        assert es[k] == es[n..][k - n] && es[n] == es[n..][0];
      }
    }
  }

  /** Any closed region that reaches `r` covers the fold. */
  lemma {:induction false} FoldIsLeast(eL: seq<Edit>, eR: seq<Edit>, r: nat, r': nat)
    requires r <= r' && BothClosed(eL, eR, r')
    ensures FoldFrom(eL, eR, r).end <= r'
    decreases |eL| + |eR|
  {
    if eL != [] && eL[0].aStart <= r {
      assert eL[0] in eL;
      FoldIsLeast(eL[1..], eR, Max(r, eL[0].aEnd), r');
    } else if eR != [] && eR[0].aStart <= r {
      assert eR[0] in eR;
      FoldIsLeast(eL, eR[1..], Max(r, eR[0].aEnd), r');
    }
  }

  /** The fold ends at the least closed region end and takes in exactly the edits that start in it. */
  lemma FoldIsLeastClosed(eL: seq<Edit>, eR: seq<Edit>, lo: nat, r: nat, hi: nat)
    requires WellFormed(eL, lo, hi) && WellFormed(eR, lo, hi) && lo <= r <= hi
    ensures var g := FoldFrom(eL, eR, r);
            && r <= g.end && BothClosed(eL, eR, g.end)
            && (forall r' :: r <= r' && BothClosed(eL, eR, r') ==> g.end <= r')
            && Counts(eL, g.end, g.nL) && Counts(eR, g.end, g.nR)
  {
    hide Cuts;
    var g := FoldFrom(eL, eR, r);
    FoldCuts(eL, eR, lo, lo, r, hi);
    CutsClosed(eL, lo, g.nL, g.end, hi);
    CutsClosed(eR, lo, g.nR, g.end, hi);
    forall r' | r <= r' && BothClosed(eL, eR, r')
      ensures g.end <= r'
    {
      FoldIsLeast(eL, eR, r, r');
    }
  }

  /** How many edits in front start at or before `r`. */
  function CountStarting(es: seq<Edit>, r: nat): nat {
    if es == [] || es[0].aStart > r then 0 else 1 + CountStarting(es[1..], r)
  }

  lemma {:induction false} CountUnique(es: seq<Edit>, r: nat, n: nat)
    requires Counts(es, r, n)
    ensures n == CountStarting(es, r)
  {
    if es != [] && n > 0 {
      assert forall k :: 1 <= k < |es| ==> es[1..][k - 1] == es[k];
      CountUnique(es[1..], r, n - 1);
    }
  }

  function MirrorFold(g: Fold): Fold { Fold(g.end, g.nR, g.nL) }

  /** The fold does not depend on which side is absorbed first. */
  lemma FoldSymmetric(eL: seq<Edit>, eR: seq<Edit>, lo: nat, r: nat, hi: nat)
    requires WellFormed(eL, lo, hi) && WellFormed(eR, lo, hi) && lo <= r <= hi
    ensures FoldFrom(eR, eL, r) == MirrorFold(FoldFrom(eL, eR, r))
  {
    hide FoldFrom, Counts, WellFormed;
    FoldIsLeastClosed(eL, eR, lo, r, hi);
    FoldIsLeastClosed(eR, eL, lo, r, hi);
    var g, h := FoldFrom(eL, eR, r), FoldFrom(eR, eL, r);
    assert BothClosed(eL, eR, h.end) && BothClosed(eR, eL, g.end);
    CountUnique(eL, g.end, g.nL);
    CountUnique(eL, h.end, h.nR);
    CountUnique(eR, g.end, g.nR);
    CountUnique(eR, h.end, h.nL);
  }

  // ---- the sweep, as a list of chunks ----

  /** A piece of the merge: base lines both sides keep, or a region with both replacements. */
  datatype Chunk =
    | Stable(lines: seq<Line>)
    | Region(was: seq<Line>, editsL: seq<Edit>, editsR: seq<Edit>, repL: seq<Line>, repR: seq<Line>)

  function NextStart(eL: seq<Edit>, eR: seq<Edit>): nat
    requires eL != [] || eR != []
  {
    if eL == [] then eR[0].aStart
    else if eR == [] then eL[0].aStart
    else Min(eL[0].aStart, eR[0].aStart)
  }

  ghost predicate Overlay(base: seq<Line>, pos: nat, eL: seq<Edit>, eR: seq<Edit>) {
    pos <= |base| && WellFormed(eL, pos, |base|) && WellFormed(eR, pos, |base|)
  }

  /** The next region makes progress and leaves a sweep that starts at its end. */
  lemma NextRegion(base: seq<Line>, pos: nat, eL: seq<Edit>, eR: seq<Edit>)
    requires Overlay(base, pos, eL, eR) && (eL != [] || eR != [])
    ensures var start := NextStart(eL, eR);
            var g := FoldFrom(eL, eR, start);
            && pos <= start <= g.end <= |base| && g.nL + g.nR > 0
            && WellFormed(eL[..g.nL], start, g.end) && WellFormed(eR[..g.nR], start, g.end)
            && Overlay(base, g.end, eL[g.nL..], eR[g.nR..])
  {
    var start := NextStart(eL, eR);
    assert WellFormed(eL, start, |base|) && WellFormed(eR, start, |base|);
    FoldCuts(eL, eR, start, start, start, |base|);
  }

  function Chunks(base: seq<Line>, pos: nat, eL: seq<Edit>, eR: seq<Edit>): seq<Chunk>
    requires Overlay(base, pos, eL, eR)
    decreases |eL| + |eR|
  {
    if eL == [] && eR == [] then [Stable(base[pos..])]
    else
      NextRegion(base, pos, eL, eR);
      var start := NextStart(eL, eR);
      var g := FoldFrom(eL, eR, start);
      [Stable(base[pos..start]), RegionAt(base, start, g.end, eL[..g.nL], eR[..g.nR])]
      + Chunks(base, g.end, eL[g.nL..], eR[g.nR..])
  }

  function RegionAt(base: seq<Line>, start: nat, end: nat, eL: seq<Edit>, eR: seq<Edit>): Chunk
    requires start <= end <= |base| && WellFormed(eL, start, end) && WellFormed(eR, start, end)
  {
    Region(base[start..end], eL, eR, Render(base, start, end, eL), Render(base, start, end, eR))
  }

  /** The program's choice for a region; `None` is a conflict. */
  function Decide(c: Chunk): Option<seq<Line>>
    requires c.Region?
  {
    if c.repL == c.repR then Some(c.repL)
    else if c.editsR == [] then Some(c.repL)
    else if c.editsL == [] then Some(c.repR)
    else None
  }

  datatype Side = Base | Left | Right | Merged

  function Pick(c: Chunk, side: Side): seq<Line> {
    match c
    case Stable(lines) => lines
    case Region(was, _, _, repL, repR) =>
      match side
      case Base => was
      case Left => repL
      case Right => repR
      case Merged => if Decide(c).Some? then Decide(c).value else []
  }

  function Text(cs: seq<Chunk>, side: Side): seq<Line> {
    if cs == [] then [] else Pick(cs[0], side) + Text(cs[1..], side)
  }

  datatype Hunk = Hunk(localLines: seq<Line>, remoteLines: seq<Line>)

  function Hunks(cs: seq<Chunk>): seq<Hunk> {
    if cs == [] then []
    else (if cs[0].Region? && Decide(cs[0]).None? then [Hunk(cs[0].repL, cs[0].repR)] else [])
         + Hunks(cs[1..])
  }

  function ScriptOf(cs: seq<Chunk>, side: Side): seq<Edit> {
    if cs == [] then []
    else (match cs[0]
          case Stable(_) => []
          case Region(_, eL, eR, _, _) => if side == Left then eL else if side == Right then eR else [])
         + ScriptOf(cs[1..], side)
  }

  lemma TwoChunks(a: Chunk, b: Chunk, cs: seq<Chunk>, side: Side)
    ensures Text([a, b] + cs, side) == Pick(a, side) + Pick(b, side) + Text(cs, side)
    ensures a.Stable? && b.Region? ==>
              && ScriptOf([a, b] + cs, side) ==
                 (if side == Left then b.editsL else if side == Right then b.editsR else []) + ScriptOf(cs, side)
              && Hunks([a, b] + cs) ==
                 (if Decide(b).None? then [Hunk(b.repL, b.repR)] else []) + Hunks(cs)
  {
    assert ([a, b] + cs)[1..] == [b] + cs && ([b] + cs)[1..] == cs;
    assert Pick(a, side) + (Pick(b, side) + Text(cs, side)) == Pick(a, side) + Pick(b, side) + Text(cs, side);
  }

  /** One side of the sweep, cut at the next region. */
  lemma SideCut(base: seq<Line>, pos: nat, start: nat, end: nat, es: seq<Edit>, n: nat)
    requires pos <= start <= end <= |base| && n <= |es|
    requires WellFormed(es, pos, |base|) && WellFormed(es, start, |base|)
    requires WellFormed(es[..n], start, end) && WellFormed(es[n..], end, |base|)
    ensures Render(base, pos, |base|, es) ==
            base[pos..start] + Render(base, start, end, es[..n]) + Render(base, end, |base|, es[n..])
  {
    hide Render, WellFormed;
    assert es[..n] + es[n..] == es;
    RenderWiden(base, pos, start, |base|, es);
    RenderSplit(base, start, end, |base|, es[..n], es[n..]);
    assert base[pos..start] + (Render(base, start, end, es[..n]) + Render(base, end, |base|, es[n..]))
        == base[pos..start] + Render(base, start, end, es[..n]) + Render(base, end, |base|, es[n..]);
  }

  // ---- what the chunks add up to ----

  /** The chunks cut the three texts into aligned pieces and use every edit once, in order. */
  lemma {:induction false} ChunksDecompose(base: seq<Line>, pos: nat, eL: seq<Edit>, eR: seq<Edit>)
    requires Overlay(base, pos, eL, eR)
    ensures var cs := Chunks(base, pos, eL, eR);
            && Text(cs, Base) == base[pos..]
            && Text(cs, Left) == Render(base, pos, |base|, eL)
            && Text(cs, Right) == Render(base, pos, |base|, eR)
            && ScriptOf(cs, Left) == eL && ScriptOf(cs, Right) == eR
    decreases |eL| + |eR|
  {
    hide Render, WellFormed, FoldFrom, Text, ScriptOf, Chunks;
    if eL == [] && eR == [] {
      LastChunk(base, pos);
    } else {
      ChunksUnfold(base, pos, eL, eR);
      var start := NextStart(eL, eR);
      var g := FoldFrom(eL, eR, start);
      ChunksDecompose(base, g.end, eL[g.nL..], eR[g.nR..]);
      var rest := Chunks(base, g.end, eL[g.nL..], eR[g.nR..]);
      DecomposeStep(base, pos, start, g, eL, eR, rest);
      ScriptStepCut(RegionAt(base, start, g.end, eL[..g.nL], eR[..g.nR]), eL, eR, g.nL, g.nR,
                    Stable(base[pos..start]), rest);
    }
  }

  lemma LastChunk(base: seq<Line>, pos: nat)
    requires pos <= |base|
    ensures Chunks(base, pos, [], []) == [Stable(base[pos..])]
    ensures forall side :: Text([Stable(base[pos..])], side) == base[pos..]
    ensures forall side :: ScriptOf([Stable(base[pos..])], side) == []
    ensures Hunks([Stable(base[pos..])]) == []
    ensures Render(base, pos, |base|, []) == base[pos..]
  {
    assert base[pos..|base|] == base[pos..];
    assert base[pos..] + [] == base[pos..];
    var cs := [Stable(base[pos..])];
    assert cs[1..] == [];
    assert Text([], Base) == Text([], Left) == Text([], Right) == Text([], Merged) == [];
    assert ScriptOf([], Base) == ScriptOf([], Left) == ScriptOf([], Right) == ScriptOf([], Merged) == [];
    forall side
      ensures Text(cs, side) == base[pos..] && ScriptOf(cs, side) == []
    {
      assert Text(cs, side) == base[pos..] + Text([], side);
      match side
      case Base => case Left => case Right => case Merged =>
    }
  }

  /** What a region in front of `rest` does to the three texts and the two scripts. */
  lemma DecomposeStep(base: seq<Line>, pos: nat, start: nat, g: Fold, eL: seq<Edit>, eR: seq<Edit>, rest: seq<Chunk>)
    requires pos <= start <= g.end <= |base| && g.nL <= |eL| && g.nR <= |eR|
    requires WellFormed(eL, pos, |base|) && WellFormed(eL, start, |base|)
    requires WellFormed(eR, pos, |base|) && WellFormed(eR, start, |base|)
    requires WellFormed(eL[..g.nL], start, g.end) && WellFormed(eL[g.nL..], g.end, |base|)
    requires WellFormed(eR[..g.nR], start, g.end) && WellFormed(eR[g.nR..], g.end, |base|)
    requires Text(rest, Base) == base[g.end..]
    requires Text(rest, Left) == Render(base, g.end, |base|, eL[g.nL..])
    requires Text(rest, Right) == Render(base, g.end, |base|, eR[g.nR..])
    ensures var cs := [Stable(base[pos..start]), RegionAt(base, start, g.end, eL[..g.nL], eR[..g.nR])] + rest;
            && Text(cs, Base) == base[pos..]
            && Text(cs, Left) == Render(base, pos, |base|, eL)
            && Text(cs, Right) == Render(base, pos, |base|, eR)
  {
    hide Render, Text, WellFormed;
    var stable, region := Stable(base[pos..start]), RegionAt(base, start, g.end, eL[..g.nL], eR[..g.nR]);
    TwoChunks(stable, region, rest, Base);
    TwoChunks(stable, region, rest, Left);
    TwoChunks(stable, region, rest, Right);
    SideCut(base, pos, start, g.end, eL, g.nL);
    SideCut(base, pos, start, g.end, eR, g.nR);
    CutTail(base, pos, start, g.end);
  }

  lemma CutTail(s: seq<Line>, pos: nat, start: nat, end: nat)
    requires pos <= start <= end <= |s|
    ensures s[pos..start] + s[start..end] + s[end..] == s[pos..]
  {
  }

  /** The next region is cut as `DecomposeStep` wants it. */
  lemma ChunksUnfold(base: seq<Line>, pos: nat, eL: seq<Edit>, eR: seq<Edit>)
    requires Overlay(base, pos, eL, eR) && (eL != [] || eR != [])
    ensures var start := NextStart(eL, eR);
            var g := FoldFrom(eL, eR, start);
            && pos <= start <= g.end <= |base| && g.nL + g.nR > 0
            && WellFormed(eL, start, |base|) && WellFormed(eR, start, |base|)
            && WellFormed(eL[..g.nL], start, g.end) && WellFormed(eR[..g.nR], start, g.end)
            && Overlay(base, g.end, eL[g.nL..], eR[g.nR..])
            && Chunks(base, pos, eL, eR) ==
               [Stable(base[pos..start]), RegionAt(base, start, g.end, eL[..g.nL], eR[..g.nR])]
               + Chunks(base, g.end, eL[g.nL..], eR[g.nR..])
  {
    hide FoldFrom, RegionAt;
    NextRegion(base, pos, eL, eR);
  }

  lemma ScriptStepCut(region: Chunk, eL: seq<Edit>, eR: seq<Edit>, nL: nat, nR: nat, stable: Chunk, rest: seq<Chunk>)
    requires nL <= |eL| && nR <= |eR| && region.Region? && stable.Stable?
    requires region.editsL == eL[..nL] && region.editsR == eR[..nR]
    requires ScriptOf(rest, Left) == eL[nL..] && ScriptOf(rest, Right) == eR[nR..]
    ensures ScriptOf([stable, region] + rest, Left) == eL && ScriptOf([stable, region] + rest, Right) == eR
  {
    TwoChunks(stable, region, rest, Left);
    TwoChunks(stable, region, rest, Right);
    assert eL[..nL] + eL[nL..] == eL && eR[..nR] + eR[nR..] == eR;
  }

  // ---- the merge of three texts ----

  datatype MergeResult = MergeResult(clean: bool, merged: string, hunks: seq<Hunk>)

  function ChunksOf(base: seq<Line>, local: seq<Line>, remote: seq<Line>): seq<Chunk> {
    Chunks(base, 0, Edits(base, local), Edits(base, remote))
  }

  function MergeChunks(cs: seq<Chunk>, eol: string): MergeResult {
    if Hunks(cs) == [] then MergeResult(true, Join(Text(cs, Merged), eol), [])
    else MergeResult(false, [], Hunks(cs))
  }

  /** The whole merge: three shortcuts on equal texts, else a sweep unless a text is too large. */
  function MergeTexts(base: string, local: string, remote: string): MergeResult {
    if local == remote then MergeResult(true, local, [])
    else if local == base then MergeResult(true, remote, [])
    else if remote == base then MergeResult(true, local, [])
    else if TooLarge(LinesOf(base), LinesOf(local)) || TooLarge(LinesOf(base), LinesOf(remote)) then
      MergeResult(false, [], [])
    else MergeChunks(ChunksOf(LinesOf(base), LinesOf(local), LinesOf(remote)), EolOf(base))
  }

  lemma CleanHasNoHunks(base: string, local: string, remote: string)
    ensures var m := MergeTexts(base, local, remote); m.clean ==> m.hunks == []
  {
    hide ChunksOf, Hunks, Text, TooLarge, LinesOf, EolOf, Join;
  }
}
