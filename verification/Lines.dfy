/** Splitting a text into lines and joining lines back into a text. */
module Lines {
  type Line = string

  const LF := "\n"
  const CRLF := "\r\n"

  predicate EndsInCr(s: string) {
    s != [] && s[|s| - 1] == '\r'
  }

  function StripCr(s: string): string {
    if EndsInCr(s) then s[..|s| - 1] else s
  }

  /** How many line ends are "\r\n" and how many are a bare "\n". */
  datatype Tally = Tally(crlf: nat, bare: nat)

  /** Counts the line ends of `text`; `afterCr` tells whether a '\r' stands right before it. */
  function CountEnds(text: string, afterCr: bool): Tally {
    if text == [] then Tally(0, 0)
    else
      var t := CountEnds(text[1..], text[0] == '\r');
      if text[0] != '\n' then t
      else if afterCr then t.(crlf := t.crlf + 1)
      else t.(bare := t.bare + 1)
  }

  /** The dominant line end; a tie, and so also a text without line ends, is CRLF. */
  function EolOf(text: string): string {
    var t := CountEnds(text, false);
    if t.crlf >= t.bare then CRLF else LF
  }

  /** The lines of `cur + text`, where `cur` is the unfinished line read so far. */
  function LinesFrom(text: string, cur: string): seq<Line> {
    if text == [] then
      if cur == [] then [] else [cur]
    else if text[0] == '\n' then
      [StripCr(cur)] + LinesFrom(text[1..], [])
    else
      LinesFrom(text[1..], cur + [text[0]])
  }

  function LinesOf(text: string): seq<Line> {
    LinesFrom(text, [])
  }

  /** The first pass of splitting: which line end dominates. */
  method DominantEol(text: string) returns (eol: string)
    ensures eol == EolOf(text)
  {
    var crlf, lfOnly := 0, 0;
    for i := 0 to |text|
      invariant crlf >= 0 && lfOnly >= 0
      invariant var rest := CountEnds(text[i..], i > 0 && text[i - 1] == '\r');
                CountEnds(text, false) == Tally(crlf + rest.crlf, lfOnly + rest.bare)
    {
      assert text[i..][1..] == text[i + 1..];
      if text[i] == '\n' {
        if i > 0 && text[i - 1] == '\r' {
          crlf := crlf + 1;
        } else {
          lfOnly := lfOnly + 1;
        }
      }
    }
    eol := if crlf >= lfOnly then CRLF else LF;
  }

  /** One character read: either it closes the line `text[start..i]` or it extends it. */
  lemma ReadOne(text: string, start: nat, i: nat)
    requires start <= i < |text|
    ensures LinesFrom(text[i..], text[start..i]) ==
            if text[i] == '\n' then [StripCr(text[start..i])] + LinesFrom(text[i + 1..], [])
            else LinesFrom(text[i + 1..], text[start..i + 1])
  {
    assert text[i..][1..] == text[i + 1..];
    assert text[start..i] + [text[i]] == text[start..i + 1];
  }

  /** Cutting off the '\r' before the newline at `i` stays inside the current line. */
  lemma LineEnd(text: string, start: nat, i: nat)
    requires start <= i < |text| && (start > 0 ==> text[start - 1] == '\n')
    ensures var end := if i > 0 && text[i - 1] == '\r' then i - 1 else i;
            start <= end && text[start..end] == StripCr(text[start..i])
  {
    if i > start {
      assert text[start..i][|text[start..i]| - 1] == text[i - 1];
    }
  }

  method SplitLines(text: string) returns (lines: seq<Line>, eol: string)
    ensures lines == LinesOf(text)
    ensures eol == EolOf(text)
  {
    eol := DominantEol(text);
    lines := [];
    var start := 0;
    for i := 0 to |text|
      invariant 0 <= start <= i
      invariant start > 0 ==> text[start - 1] == '\n'
      invariant lines + LinesFrom(text[i..], text[start..i]) == LinesOf(text)
    {
      ReadOne(text, start, i);
      if text[i] == '\n' {
        var end := if i > 0 && text[i - 1] == '\r' then i - 1 else i;
        LineEnd(text, start, i);
        ghost var rest := LinesFrom(text[i + 1..], []);
        assert lines + [text[start..end]] + rest == lines + ([text[start..end]] + rest);
        lines := lines + [text[start..end]];
        start := i + 1;
        assert text[start..i + 1] == [];
      }
    }
    assert text[|text|..] == [] && text[start..|text|] == text[start..];
    if start < |text| {
      lines := lines + [text[start..]];
    }
  }

  /** Every line followed by `eol`. */
  function Join(lines: seq<Line>, eol: string): string {
    if lines == [] then [] else lines[0] + eol + Join(lines[1..], eol)
  }

  lemma {:induction false} JoinAppend(a: seq<Line>, b: seq<Line>, eol: string)
    ensures Join(a + b, eol) == Join(a, eol) + Join(b, eol)
  {
    if a == [] {
      assert a + b == b;
    } else {
      assert (a + b)[1..] == a[1..] + b;
      JoinAppend(a[1..], b, eol);
    }
  }

  /** A split line never holds a newline. */
  lemma {:induction false} LinesHaveNoNewline(text: string, cur: string)
    requires '\n' !in cur
    ensures forall l <- LinesFrom(text, cur) :: '\n' !in l
    decreases |text|
  {
    if text != [] {
      if text[0] == '\n' {
        LinesHaveNoNewline(text[1..], []);
      } else {
        LinesHaveNoNewline(text[1..], cur + [text[0]]);
      }
    }
  }

  /** Reading a newline-free stretch only extends the unfinished line. */
  lemma {:induction false} ReadStretch(l: string, rest: string, cur: string)
    requires '\n' !in l
    ensures LinesFrom(l + rest, cur) == LinesFrom(rest, cur + l)
  {
    if l == [] {
      assert l + rest == rest && cur + l == cur;
    } else {
      assert (l + rest)[1..] == l[1..] + rest;
      ReadStretch(l[1..], rest, cur + [l[0]]);
      assert cur + [l[0]] + l[1..] == cur + l;
    }
  }

  function StripCrs(lines: seq<Line>): seq<Line> {
    if lines == [] then [] else [StripCr(lines[0])] + StripCrs(lines[1..])
  }

  /** A newline closes the line read so far. */
  lemma ReadLine(l: string, rest: string)
    requires '\n' !in l
    ensures LinesOf(l + LF + rest) == [StripCr(l)] + LinesOf(rest)
  {
    ReadStretch(l, LF + rest, []);
    assert l + LF + rest == l + (LF + rest) && [] + l == l;
    assert (LF + rest)[1..] == rest;
  }

  /** What splitting does to joined newline-free lines: with LF ends it eats one trailing CR of each. */
  lemma {:induction false} SplitOfJoin(lines: seq<Line>, eol: string)
    requires eol == LF || eol == CRLF
    requires forall l <- lines :: '\n' !in l
    ensures LinesOf(Join(lines, eol)) == if eol == CRLF then lines else StripCrs(lines)
  {
    if lines != [] {
      var l, rest := lines[0], Join(lines[1..], eol);
      SplitOfJoin(lines[1..], eol);
      if eol == CRLF {
        assert l + CRLF + rest == (l + ['\r']) + LF + rest;
        ReadLine(l + ['\r'], rest);
      } else {
        ReadLine(l, rest);
      }
    }
  }

  lemma {:induction false} StripCrsIdentity(lines: seq<Line>)
    ensures StripCrs(lines) == lines <==> forall l <- lines :: !EndsInCr(l)
  {
    if lines != [] {
      StripCrsIdentity(lines[1..]);
      assert lines == [lines[0]] + lines[1..];
      assert StripCrs(lines)[0] == StripCr(lines[0]);
      assert StripCrs(lines)[1..] == StripCrs(lines[1..]);
      if forall l <- lines[1..] :: !EndsInCr(l) {
      } else {
        assert exists l <- lines[1..] :: EndsInCr(l) && l in lines;
      }
    }
  }

  lemma {:induction false} CountStretch(l: string, rest: string, afterCr: bool)
    requires '\n' !in l
    ensures CountEnds(l + rest, afterCr) == CountEnds(rest, if l == [] then afterCr else EndsInCr(l))
  {
    if l == [] {
      assert l + rest == rest;
    } else {
      assert (l + rest)[1..] == l[1..] + rest;
      CountStretch(l[1..], rest, l[0] == '\r');
    }
  }

  lemma {:induction false} CountOfJoin(lines: seq<Line>, eol: string, afterCr: bool)
    requires eol == LF || eol == CRLF
    requires forall l <- lines :: '\n' !in l && (eol == LF ==> !EndsInCr(l))
    requires eol == LF ==> !afterCr
    ensures CountEnds(Join(lines, eol), afterCr) ==
            if eol == CRLF then Tally(|lines|, 0) else Tally(0, |lines|)
  {
    if lines != [] {
      var l, rest := lines[0], Join(lines[1..], eol);
      CountOfJoin(lines[1..], eol, false);
      var full := if eol == CRLF then l + ['\r'] else l;
      assert Join(lines, eol) == full + (['\n'] + rest);
      CountStretch(full, ['\n'] + rest, afterCr);
      assert (['\n'] + rest)[1..] == rest;
    }
  }

  /** Joining and splitting again returns the lines exactly when no line holds a newline
      and, with LF ends, none ends in CR; a non-empty list then also gets its line end back. */
  lemma {:induction false} JoinSplitRoundTrip(lines: seq<Line>, eol: string)
    requires eol == LF || eol == CRLF
    ensures LinesOf(Join(lines, eol)) == lines <==>
            forall l <- lines :: '\n' !in l && (eol == LF ==> !EndsInCr(l))
    ensures LinesOf(Join(lines, eol)) == lines && lines != [] ==> EolOf(Join(lines, eol)) == eol
  {
    LinesHaveNoNewline(Join(lines, eol), []);
    if forall l <- lines :: '\n' !in l {
      SplitOfJoin(lines, eol);
      StripCrsIdentity(lines);
      if eol == CRLF || forall l <- lines :: !EndsInCr(l) {
        CountOfJoin(lines, eol, false);
      }
    }
  }

  // ---- what the lines of a text are ----

  /** Each line followed by its own end. */
  function Glue(lines: seq<Line>, ends: seq<string>): string
    requires |lines| == |ends|
  {
    if lines == [] then [] else lines[0] + ends[0] + Glue(lines[1..], ends[1..])
  }

  /** How often an end occurs. */
  function CountOf(ends: seq<string>, e: string): nat {
    if ends == [] then 0 else (if ends[0] == e then 1 else 0) + CountOf(ends[1..], e)
  }

  /** A line and its end: CRLF, LF after a line that does not end in CR, or nothing after a last line that is
      not empty. */
  predicate ProperEnd(line: Line, end: string, last: bool) {
    && '\n' !in line
    && (end == CRLF || (end == LF && !EndsInCr(line)) || (end == "" && last && line != []))
  }

  ghost predicate EndsOf(text: string, lines: seq<Line>, ends: seq<string>) {
    && |lines| == |ends| && text == Glue(lines, ends)
    && forall i :: 0 <= i < |lines| ==> ProperEnd(lines[i], ends[i], i == |lines| - 1)
  }

  lemma GlueCons(line: Line, end: string, lines: seq<Line>, ends: seq<string>, text: string)
    requires EndsOf(text, lines, ends) && ProperEnd(line, end, false)
    ensures EndsOf(line + end + text, [line] + lines, [end] + ends)
    ensures CountOf([end] + ends, CRLF) == (if end == CRLF then 1 else 0) + CountOf(ends, CRLF)
    ensures CountOf([end] + ends, LF) == (if end == LF then 1 else 0) + CountOf(ends, LF)
  {
    assert ([line] + lines)[1..] == lines && ([end] + ends)[1..] == ends;
  }

  /** What is left at the end of a text is a line without an end. */
  lemma LastEnd(cur: string)
    requires '\n' !in cur
    ensures EndsOf([], [], []) && (cur != [] ==> EndsOf(cur, [cur], [""]))
  {
    assert [cur][1..] == [] && [""][1..] == [] && cur + "" + [] == cur;
  }

  /** A newline and the CR before it are the line's end. */
  lemma LineAndEnd(cur: string, text: string)
    requires '\n' !in cur && text != [] && text[0] == '\n'
    ensures var end := if EndsInCr(cur) then CRLF else LF;
            StripCr(cur) + end + text[1..] == cur + text && ProperEnd(StripCr(cur), end, false)
  {
    assert forall c <- StripCr(cur) :: c in cur;
    if EndsInCr(cur) {
      assert StripCr(cur) + ['\r'] == cur;
    }
  }

  lemma {:induction false} EndsFrom(text: string, cur: string) returns (ends: seq<string>)
    requires '\n' !in cur
    ensures EndsOf(cur + text, LinesFrom(text, cur), ends)
    ensures CountEnds(text, EndsInCr(cur)) == Tally(CountOf(ends, CRLF), CountOf(ends, LF))
    decreases |text|
  {
    hide ProperEnd, StripCr;
    if text == [] {
      LastEnd(cur);
      assert cur + text == cur;
      ends := if cur == [] then [] else [""];
    } else if text[0] == '\n' {
      var rest := EndsFrom(text[1..], []);
      assert [] + text[1..] == text[1..];
      var end := if EndsInCr(cur) then CRLF else LF;
      LineAndEnd(cur, text);
      GlueCons(StripCr(cur), end, LinesFrom(text[1..], []), rest, text[1..]);
      ends := [end] + rest;
    } else {
      assert cur + [text[0]] + text[1..] == cur + text;
      ends := EndsFrom(text[1..], cur + [text[0]]);
    }
  }

  /** Splitting loses nothing: the lines, each with its own end, are the text, a CR before a newline belongs to the
      end, and only a last line that is not empty may lack one. The line end is CRLF exactly when at least as many
      of these are CRLF as bare LF. */
  lemma LinesMakeTheText(text: string)
    ensures exists ends :: EndsOf(text, LinesOf(text), ends)
              && (EolOf(text) == CRLF <==> CountOf(ends, CRLF) >= CountOf(ends, LF))
    ensures EolOf(text) == CRLF || EolOf(text) == LF
  {
    var ends := EndsFrom(text, []);
    assert [] + text == text;
  }
}
