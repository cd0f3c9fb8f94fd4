/** The three-way merge as the program runs it: one sweep over the base with both scripts. */
module Sweep {
  import opened Basics
  import opened Lines
  import opened Diff
  import opened Merge

  /** Appends `lines[lo..hi]` to the text, each with its line end. */
  method CopyLines(out: string, lines: seq<Line>, lo: nat, hi: nat, eol: string) returns (longer: string)
    requires lo <= hi <= |lines|
    ensures longer == out + Join(lines[lo..hi], eol)
  {
    longer := out;
    for k := lo to hi
      invariant longer == out + Join(lines[lo..k], eol)
    {
      JoinOneMore(lines, lo, k, eol);
      assert out + (Join(lines[lo..k], eol) + lines[k] + eol) == out + Join(lines[lo..k], eol) + lines[k] + eol;
      longer := longer + lines[k] + eol;
    }
  }

  lemma JoinOneMore(lines: seq<Line>, lo: nat, k: nat, eol: string)
    requires lo <= k < |lines|
    ensures Join(lines[lo..k + 1], eol) == Join(lines[lo..k], eol) + lines[k] + eol
  {
    assert lines[lo..k + 1] == lines[lo..k] + [lines[k]];
    JoinAppend(lines[lo..k], [lines[k]], eol);
    assert [lines[k]][1..] == [];
    assert Join([lines[k]], eol) == lines[k] + eol + [];
  }

  // ---- folding a region ----

  function Plus(g: Fold, nL: nat, nR: nat): Fold { Fold(g.end, g.nL + nL, g.nR + nR) }

  lemma DropFirst(es: seq<Edit>, s: nat, lo: nat, hi: nat)
    requires s < |es| && WellFormed(es[s..], lo, hi)
    ensures es[s + 1..] == es[s..][1..]
    ensures WellFormed(es[s + 1..], lo, hi) && es[s].aEnd <= hi
  {
  }

  /** Absorbing the next local edit is the fold's own first choice. */
  lemma AbsorbLeft(eL: seq<Edit>, eR: seq<Edit>, sL: nat, r: nat)
    requires sL < |eL| && eL[sL].aStart <= r
    ensures FoldFrom(eL[sL..], eR, r) == Plus(FoldFrom(eL[sL + 1..], eR, Max(r, eL[sL].aEnd)), 1, 0)
  {
    assert eL[sL..][1..] == eL[sL + 1..];
  }

  /** Absorbing the next remote edit instead leads to the same fold. */
  lemma AbsorbRight(eL: seq<Edit>, eR: seq<Edit>, sR: nat, r: nat, lo: nat, hi: nat)
    requires sR < |eR| && eR[sR].aStart <= r && lo <= r <= hi
    requires WellFormed(eL, lo, hi) && WellFormed(eR[sR..], lo, hi)
    ensures FoldFrom(eL, eR[sR..], r) == Plus(FoldFrom(eL, eR[sR + 1..], Max(r, eR[sR].aEnd)), 0, 1)
  {
    hide FoldFrom, WellFormed;
    DropFirst(eR, sR, lo, hi);
    AbsorbLeft(eR, eL, sR, r);
    FoldSymmetric(eR[sR..], eL, lo, r, hi);
    FoldSymmetric(eR[sR + 1..], eL, lo, Max(r, eR[sR].aEnd), hi);
  }

  /** How far the fold has come: regions and counts so far against the whole fold. */
  ghost predicate Folding(eL: seq<Edit>, eR: seq<Edit>, iL: nat, iR: nat, start: nat, hi: nat,
                          sL: nat, sR: nat, end: nat)
  {
    && iL <= sL <= |eL| && iR <= sR <= |eR| && start <= end <= hi
    && WellFormed(eL[sL..], start, hi) && WellFormed(eR[sR..], start, hi)
    && FoldFrom(eL[iL..], eR[iR..], start) == Plus(FoldFrom(eL[sL..], eR[sR..], end), sL - iL, sR - iR)
  }

  method FoldLeft(eL: seq<Edit>, eR: seq<Edit>, ghost iL: nat, ghost iR: nat, ghost start: nat, ghost hi: nat,
                  sL0: nat, ghost sR: nat, end0: nat) returns (sL: nat, end: nat)
    requires Folding(eL, eR, iL, iR, start, hi, sL0, sR, end0)
    ensures Folding(eL, eR, iL, iR, start, hi, sL, sR, end)
    ensures sL0 <= sL && (sL < |eL| ==> eL[sL].aStart > end) && (sL == sL0 ==> end == end0)
  {
    hide FoldFrom, WellFormed;
    sL, end := sL0, end0;
    while sL < |eL| && eL[sL].aStart <= end
      invariant Folding(eL, eR, iL, iR, start, hi, sL, sR, end)
      invariant sL0 <= sL && (sL == sL0 ==> end == end0)
    {
      DropFirst(eL, sL, start, hi);
      AbsorbLeft(eL, eR[sR..], sL, end);
      end := Max(end, eL[sL].aEnd);
      sL := sL + 1;
    }
  }

  method FoldRight(eL: seq<Edit>, eR: seq<Edit>, ghost iL: nat, ghost iR: nat, ghost start: nat, ghost hi: nat,
                   ghost sL: nat, sR0: nat, end0: nat) returns (sR: nat, end: nat)
    requires Folding(eL, eR, iL, iR, start, hi, sL, sR0, end0)
    ensures Folding(eL, eR, iL, iR, start, hi, sL, sR, end)
    ensures sR0 <= sR && (sR < |eR| ==> eR[sR].aStart > end) && (sR == sR0 ==> end == end0)
  {
    hide FoldFrom, WellFormed;
    sR, end := sR0, end0;
    while sR < |eR| && eR[sR].aStart <= end
      invariant Folding(eL, eR, iL, iR, start, hi, sL, sR, end)
      invariant sR0 <= sR && (sR == sR0 ==> end == end0)
    {
      DropFirst(eR, sR, start, hi);
      AbsorbRight(eL[sL..], eR, sR, end, start, hi);
      end := Max(end, eR[sR].aEnd);
      sR := sR + 1;
    }
  }

  /** Folds all overlapping edits of both sides into one region that starts at `start`. */
  method FoldRegion(eL: seq<Edit>, eR: seq<Edit>, iL: nat, iR: nat, start: nat, ghost hi: nat)
      returns (end: nat, sL: nat, sR: nat)
    requires iL <= |eL| && iR <= |eR| && start <= hi
    requires WellFormed(eL[iL..], start, hi) && WellFormed(eR[iR..], start, hi)
    ensures iL <= sL <= |eL| && iR <= sR <= |eR|
    ensures FoldFrom(eL[iL..], eR[iR..], start) == Fold(end, sL - iL, sR - iR)
  {
    end, sL, sR := start, iL, iR;
    while true
      invariant Folding(eL, eR, iL, iR, start, hi, sL, sR, end)
      decreases |eL| - sL + |eR| - sR
    {
      var sL', sR';
      sL', end := FoldLeft(eL, eR, iL, iR, start, hi, sL, sR, end);
      sR', end := FoldRight(eL, eR, iL, iR, start, hi, sL', sR, end);
      var grew := sL' > sL || sR' > sR;
      sL, sR := sL', sR';
      if !grew {
        break;
      }
    }
  }

  // ---- replacement texts ----

  /** One side's text for the region `[start, end)`: base lines with the edits `es[from..to]` put in. */
  method Build(base: seq<Line>, es: seq<Edit>, from: nat, to: nat, start: nat, end: nat) returns (rep: seq<Line>)
    requires from <= to <= |es| && start <= end <= |base| && WellFormed(es[from..to], start, end)
    ensures rep == Render(base, start, end, es[from..to])
  {
    hide Render, WellFormed;
    rep := [];
    var cursor := start;
    for k := from to to
      invariant 0 <= cursor <= end && WellFormed(es[k..to], cursor, end)
      invariant rep + Render(base, cursor, end, es[k..to]) == Render(base, start, end, es[from..to])
    {
      BuildStep(base, es, k, to, cursor, end, rep);
      rep := rep + base[cursor..es[k].aStart] + es[k].lines;
      cursor := es[k].aEnd;
    }
    assert es[to..to] == [];
    RenderNothing(base, cursor, end);
    rep := rep + base[cursor..end];
  }

  lemma BuildStep(base: seq<Line>, es: seq<Edit>, k: nat, to: nat, cursor: nat, end: nat, rep: seq<Line>)
    requires k < to <= |es| && cursor <= end <= |base| && WellFormed(es[k..to], cursor, end)
    ensures cursor <= es[k].aStart <= es[k].aEnd <= end && WellFormed(es[k + 1..to], es[k].aEnd, end)
    ensures rep + Render(base, cursor, end, es[k..to]) ==
            (rep + base[cursor..es[k].aStart] + es[k].lines) + Render(base, es[k].aEnd, end, es[k + 1..to])
  {
    assert es[k..to][1..] == es[k + 1..to];
    var tail := Render(base, es[k].aEnd, end, es[k + 1..to]);
    var piece := base[cursor..es[k].aStart];
    assert rep + (piece + es[k].lines + tail) == (rep + piece + es[k].lines) + tail;
  }

  // ---- the sweep ----

  /** The merged text and the hunks so far, and the chunks still to come. */
  ghost predicate Swept(out: string, hunks: seq<Hunk>, rest: seq<Chunk>, all: seq<Chunk>, eol: string) {
    && out + Join(Text(rest, Merged), eol) == Join(Text(all, Merged), eol)
    && hunks + Hunks(rest) == Hunks(all)
  }

  lemma SweptStart(all: seq<Chunk>, eol: string)
    ensures Swept([], [], all, all, eol)
  {
  }

  lemma SweptRegion(out: string, hunks: seq<Hunk>, stable: Chunk, region: Chunk, rest: seq<Chunk>, all: seq<Chunk>,
                    eol: string)
    requires stable.Stable? && region.Region?
    requires Swept(out, hunks, [stable, region] + rest, all, eol)
    ensures Decide(region).Some? ==>
              Swept(out + Join(stable.lines, eol) + Join(Decide(region).value, eol), hunks, rest, all, eol)
    ensures Decide(region).None? ==>
              Swept(out + Join(stable.lines, eol), hunks + [Hunk(region.repL, region.repR)], rest, all, eol)
  {
    hide Text, Hunks, Join, Decide;
    TwoChunks(stable, region, rest, Merged);
    var a, b, c := stable.lines, Pick(region, Merged), Text(rest, Merged);
    JoinAppend(a + b, c, eol);
    JoinAppend(a, b, eol);
    assert out + (Join(a, eol) + Join(b, eol) + Join(c, eol)) == out + Join(a, eol) + Join(b, eol) + Join(c, eol);
    JoinNothing(eol);
    assert Join(a, eol) + [] == Join(a, eol);
    var h := if Decide(region).None? then [Hunk(region.repL, region.repR)] else [];
    assert hunks + (h + Hunks(rest)) == (hunks + h) + Hunks(rest);
    assert hunks + [] == hunks;
  }

  lemma JoinNothing(eol: string)
    ensures Join([], eol) == []
  {
  }

  lemma SweptEnd(out: string, hunks: seq<Hunk>, lines: seq<Line>, all: seq<Chunk>, eol: string)
    requires Swept(out, hunks, [Stable(lines)], all, eol)
    ensures out + Join(lines, eol) == Join(Text(all, Merged), eol) && hunks == Hunks(all)
  {
    assert [Stable(lines)][1..] == [];
    assert Text([Stable(lines)], Merged) == lines + [];
    assert lines + [] == lines;
    assert Hunks([Stable(lines)]) == [] + Hunks([]) == [];
    assert hunks + [] == hunks;
  }

  /** Sweeps both scripts over the base, starting from nothing. */
  method SweepBase(base: seq<Line>, eL: seq<Edit>, eR: seq<Edit>, eol: string)
      returns (out: string, hunks: seq<Hunk>)
    requires Overlay(base, 0, eL, eR)
    ensures out == Join(Text(Chunks(base, 0, eL, eR), Merged), eol)
    ensures hunks == Hunks(Chunks(base, 0, eL, eR))
  {
    hide WellFormed, FoldFrom, Chunks, Text, Hunks, Join, Decide, Swept, Render;
    ghost var all := Chunks(base, 0, eL, eR);
    out, hunks := [], [];
    var iL, iR, basePos := 0, 0, 0;
    assert eL[0..] == eL && eR[0..] == eR;
    SweptStart(all, eol);
    while basePos < |base| || iL < |eL| || iR < |eR|
      invariant 0 <= basePos <= |base| && iL <= |eL| && iR <= |eR|
      invariant Overlay(base, basePos, eL[iL..], eR[iR..])
      invariant Swept(out, hunks, Chunks(base, basePos, eL[iL..], eR[iR..]), all, eol)
      decreases |base| - basePos + |eL| - iL + |eR| - iR
    {
      if iL == |eL| && iR == |eR| {
        break;
      }
      ChunksUnfold(base, basePos, eL[iL..], eR[iR..]);
      var start := NextStart(eL[iL..], eR[iR..]);
      var end, sL, sR := FoldRegion(eL, eR, iL, iR, start, |base|);
      ghost var stable := Stable(base[basePos..start]);
      SuffixOf(eL, iL, sL);
      SuffixOf(eR, iR, sR);
      var repL := Build(base, eL, iL, sL, start, end);
      var repR := Build(base, eR, iR, sR, start, end);
      ghost var region := RegionAt(base, start, end, eL[iL..sL], eR[iR..sR]);
      SweptRegion(out, hunks, stable, region, Chunks(base, end, eL[sL..], eR[sR..]), all, eol);
      out := CopyLines(out, base, basePos, start, eol);
      out, hunks := Settle(out, hunks, repL, repR, sL > iL, sR > iR, eol, region);
      iL, iR, basePos := sL, sR, end;
    }
    assert eL[iL..] == [] && eR[iR..] == [];
    LastChunk(base, basePos);
    SweptEnd(out, hunks, base[basePos..], all, eol);
    assert base[basePos..|base|] == base[basePos..];
    out := CopyLines(out, base, basePos, |base|, eol);
  }

  lemma SuffixOf(es: seq<Edit>, i: nat, s: nat)
    requires i <= s <= |es|
    ensures es[i..][..s - i] == es[i..s] && es[i..][s - i..] == es[s..]
  {
  }

  /** Appends the region's outcome to the text, or records the conflict. */
  method Settle(out: string, hunks: seq<Hunk>, repL: seq<Line>, repR: seq<Line>, hasL: bool, hasR: bool, eol: string,
                ghost region: Chunk) returns (out': string, hunks': seq<Hunk>)
    requires region.Region? && region.repL == repL && region.repR == repR
    requires hasL == (region.editsL != []) && hasR == (region.editsR != [])
    ensures Decide(region).Some? ==> out' == out + Join(Decide(region).value, eol) && hunks' == hunks
    ensures Decide(region).None? ==> out' == out && hunks' == hunks + [Hunk(repL, repR)]
  {
    hide Join;
    out', hunks' := out, hunks;
    if repL == repR {
      out' := CopyLines(out, repL, 0, |repL|, eol);
    } else if !hasR {
      out' := CopyLines(out, repL, 0, |repL|, eol);
    } else if !hasL {
      out' := CopyLines(out, repR, 0, |repR|, eol);
    } else {
      hunks' := hunks + [Hunk(repL, repR)];
    }
    assert repL[0..|repL|] == repL && repR[0..|repR|] == repR;
  }

  /** The automatic merge of two divergent texts over their common base. */
  method ThreeWayMerge(base: string, local: string, remote: string) returns (result: MergeResult)
    ensures result == MergeTexts(base, local, remote)
  {
    hide Edits, Chunks, Text, Hunks, LinesOf, EolOf, Join;
    if local == remote {
      return MergeResult(true, local, []);
    }
    if local == base {
      return MergeResult(true, remote, []);
    }
    if remote == base {
      return MergeResult(true, local, []);
    }
    var baseLines, eol := SplitLines(base);
    var localLines, _ := SplitLines(local);
    var remoteLines, _ := SplitLines(remote);
    var editsL, okL := DiffLines(baseLines, localLines);
    var editsR, okR := DiffLines(baseLines, remoteLines);
    if !okL || !okR {
      return MergeResult(false, [], []);
    }
    var out, hunks := SweepBase(baseLines, editsL, editsR, eol);
    if hunks != [] {
      return MergeResult(false, [], hunks);
    }
    return MergeResult(true, out, []);
  }
}
