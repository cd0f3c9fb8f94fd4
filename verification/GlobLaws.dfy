/** When the greedy scan also finds every match. */
module GlobLaws {
  import opened Glob

  /** What the stars passed so far leave open. After a single star the stretch up to the next one is `Open`
      until a '?' (`Asked`) or a '/' (`Free` again) comes; a double star is never done. */
  datatype Phase = Free | Open | Asked | AfterDouble

  function Pass(phase: Phase, c: char): Phase {
    if phase != Open then phase else if c == '?' then Asked else if c == '/' then Free else Open
  }

  /** No `*` comes after a `**`, nor after a `*` with a '?' in between that no '/' precedes. */
  predicate StarsSafe(pat: string, phase: Phase)
    decreases |pat|
  {
    if pat == [] then true
    else if Doubled(pat) then StarsSafe(Rest(pat), AfterDouble)
    else if pat[0] == '*' then (phase == Free || phase == Open) && StarsSafe(pat[1..], Open)
    else StarsSafe(pat[1..], Pass(phase, pat[0]))
  }

  /** What follows a leading `**` and the '/' it takes with it. */
  function Rest(pat: string): string
    requires Doubled(pat)
  {
    if Collapsing(pat) then pat[3..] else pat[2..]
  }

  /** Nothing but stars comes after some `**` that takes a '/' with it. */
  predicate EndsInCollapse(pat: string) {
    exists i :: 0 <= i <= |pat| - 3 && Collapsing(pat[i..]) && StarsOnly(pat[i + 3..])
  }

  predicate Flat(pat: string, str: string) { '/' !in pat && '/' !in str }

  /** What a caller can check beforehand: the string has no '*', and either there are no slashes at all or
      the pattern's stars come in an order that one backtracking point is enough for. */
  predicate Handled(pat: string, str: string) {
    '*' !in str && (Flat(pat, str) || (StarsSafe(pat, Free) && !EndsInCollapse(pat)))
  }

  // ---- reading a pattern ----

  /** A pattern that matches nothing at all is all stars, unless it ends in a `**` that takes a '/' along. */
  lemma {:induction false} EmptyMatch(q: string)
    requires Matches(q, []) && !StarsOnly(q)
    ensures EndsInCollapse(q)
    decreases |q|, 0
  {
    var none: string := [];
    assert none[0..] == [];
    if Matches(q[1..], []) {
      EmptyMatchAfter(q, 1);
    } else if StarsOnly(q[3..]) {
      assert q[0..] == q;
    } else {
      EmptyMatchAfter(q, 3);
    }
  }

  lemma {:induction false} EmptyMatchAfter(q: string, n: nat)
    requires 1 <= n <= |q| && Matches(q[n..], []) && !StarsOnly(q[n..])
    ensures EndsInCollapse(q)
    decreases |q| - n, 1
  {
    hide Matches;
    EmptyMatch(q[n..]);
    EndsInSuffix(q, n);
  }

  lemma EndsInSuffix(pat: string, n: nat)
    requires n <= |pat| && EndsInCollapse(pat[n..])
    ensures EndsInCollapse(pat)
  {
    var i :| 0 <= i <= |pat[n..]| - 3 && Collapsing(pat[n..][i..]) && StarsOnly(pat[n..][i + 3..]);
    assert pat[n..][i..] == pat[n + i..] && pat[n..][i + 3..] == pat[n + i + 3..];
  }

  /** A leading `**` covers some text and the rest of the pattern the rest, however the stars are read. */
  lemma DoubleCovers(q: string, t: string, phase: Phase)
    requires Doubled(q) && Matches(q, t) && ('/' !in q || StarsSafe(q, phase))
    ensures exists k :: 0 <= k <= |t| && Matches(Rest(q), t[k..])
  {
    if k :| 0 <= k <= |t| && '/' !in t[..k] && Matches(q[1..], t[k..]) {
      StarThenStar(q, t, k, phase);
    } else if Collapsing(q) && exists k :: 0 <= k <= |t| && Matches(q[3..], t[k..]) {
    } else {
      var k :| 0 <= k <= |t| && Matches(q[2..], t[k..]);
      SkipSlash(q, t, k);
    }
  }

  /** Text that the pattern after `**` covers, less the '/' that the `**` takes with it. */
  lemma SkipSlash(q: string, t: string, k: nat)
    requires Doubled(q) && k <= |t| && Matches(q[2..], t[k..])
    ensures exists j :: 0 <= j <= |t| && Matches(Rest(q), t[j..])
  {
    if Collapsing(q) {
      assert q[2..][1..] == q[3..] && t[k..][1..] == t[k + 1..];
    }
  }

  lemma StarThenStar(q: string, t: string, k: nat, phase: Phase)
    requires Doubled(q) && k <= |t| && Matches(q[1..], t[k..]) && ('/' !in q || StarsSafe(q, phase))
    ensures exists j :: 0 <= j <= |t| && Matches(Rest(q), t[j..])
  {
    hide Matches, StarsSafe;
    var u, r := t[k..], q[2..];
    assert q[1..][1..] == r;
    NoCollapseAfterDouble(q, phase);
    StarCases(q[1..], u);
    if i :| 0 <= i <= |u| && Doubled(q[1..]) && Matches(q[1..][2..], u[i..]) {
      assert q[1..][2..] == r[1..] && u[i..] == t[k + i..];
      EmptyStar(r, u[i..]);
      SkipSlash(q, t, k + i);
    } else {
      var i :| 0 <= i <= |u| && Matches(r, u[i..]);
      assert u[i..] == t[k + i..];
      SkipSlash(q, t, k + i);
    }
  }

  lemma StarCases(q: string, u: string)
    requires q != [] && q[0] == '*' && Matches(q, u) && !Collapsing(q)
    ensures (exists i :: 0 <= i <= |u| && Matches(q[1..], u[i..]))
         || (exists i :: 0 <= i <= |u| && Doubled(q) && Matches(q[2..], u[i..]))
  {
  }

  lemma EmptyStar(r: string, u: string)
    requires r != [] && r[0] == '*' && Matches(r[1..], u)
    ensures Matches(r, u)
  {
    assert u[0..] == u;
  }

  lemma NoCollapseAfterDouble(q: string, phase: Phase)
    requires Doubled(q) && ('/' !in q || StarsSafe(q, phase))
    ensures !Collapsing(q[1..])
  {
  }

  /** A stretch of pattern without stars covers as many characters, one each. */
  lemma {:induction false} SegmentCovers(pat: string, a: nat, p: nat, t: string)
    requires a <= p <= |pat| && (forall i :: a <= i < p ==> pat[i] != '*') && Matches(pat[a..], t)
    ensures p - a <= |t| && Matches(pat[p..], t[p - a..])
    ensures forall i :: a <= i < p ==> pat[i] == '?' || pat[i] == t[i - a]
    decreases p - a
  {
    if a == p {
      assert t[0..] == t;
    } else {
      assert pat[a..][1..] == pat[a + 1..];
      SegmentCovers(pat, a + 1, p, t[1..]);
      assert t[1..][p - a - 1..] == t[p - a..];
      forall i | a <= i < p
        ensures pat[i] == '?' || pat[i] == t[i - a]
      {
        if i > a {
          assert t[1..][i - a - 1] == t[i - a];
        }
      }
    }
  }

  // ---- the scan's state ----

  /** Since the last star the pattern has had no star and matched the string character by character. */
  predicate Segment(pat: string, str: string, p: nat, s: nat, star: Star)
    requires InBounds(pat, str, p, s, star)
  {
    star.Star? ==>
      var a := After(pat, star);
      && s - star.from == p - a
      && forall i :: a <= i < p ==> pat[i] != '*' && (pat[i] == '?' || pat[i] == str[star.from + (i - a)])
  }

  predicate Fine(pat: string, str: string, p: nat, star: Star)
    requires p <= |pat| && (star.Star? ==> After(pat, star) <= |pat|)
  {
    && '*' !in str
    && (!Flat(pat, str) ==>
          && !EndsInCollapse(pat)
          && if star.NoStar? then StarsSafe(pat[p..], Free)
             else StarsSafe(pat[After(pat, star)..], if star.double then AfterDouble else Open))
  }

  /** The phase after a stretch without stars. */
  function Through(seg: string, phase: Phase): Phase
    decreases |seg|
  {
    if seg == [] then phase else Through(seg[1..], Pass(phase, seg[0]))
  }

  function PhaseAt(pat: string, p: nat, star: Star): Phase
    requires p <= |pat| && (star.Star? ==> After(pat, star) <= p)
  {
    if star.NoStar? then Free
    else if star.double then AfterDouble
    else Through(pat[After(pat, star)..p], Open)
  }

  lemma {:induction false} ThroughStays(seg: string, phase: Phase)
    requires phase != Open
    ensures Through(seg, phase) == phase
    decreases |seg|
  {
    if seg != [] {
      ThroughStays(seg[1..], phase);
    }
  }

  /** A stretch that stays open has neither '?' nor '/'; one that frees has a '/' before any '?'. */
  lemma {:induction false} ThroughMeans(seg: string)
    ensures Through(seg, Open) == Open ==> forall i :: 0 <= i < |seg| ==> seg[i] != '?' && seg[i] != '/'
    ensures Through(seg, Open) == Free ==> exists i :: Pins(seg, i)
    decreases |seg|
  {
    if seg == [] {
    } else if seg[0] == '?' || seg[0] == '/' {
      ThroughStays(seg[1..], Pass(Open, seg[0]));
      assert seg[0] == '/' ==> Pins(seg, 0);
    } else {
      ThroughMeans(seg[1..]);
      if Through(seg, Open) == Free {
        var i :| Pins(seg[1..], i);
        assert Pins(seg, i + 1);
      }
    }
  }

  /** The first '/' of a stretch comes before any '?'. */
  predicate Pins(seg: string, i: int) {
    0 <= i < |seg| && seg[i] == '/' && forall j :: 0 <= j < i ==> seg[j] != '?' && seg[j] != '/'
  }

  /** The order of stars is as good after a stretch without stars. */
  lemma {:induction false} SafeAlong(pat: string, a: nat, p: nat, phase: Phase)
    requires a <= p <= |pat| && (forall i :: a <= i < p ==> pat[i] != '*') && StarsSafe(pat[a..], phase)
    ensures StarsSafe(pat[p..], Through(pat[a..p], phase))
    decreases p - a
  {
    if a < p {
      assert pat[a..][1..] == pat[a + 1..] && pat[a..p] == [pat[a]] + pat[a + 1..p];
      assert pat[a..p][1..] == pat[a + 1..p];
      SafeAlong(pat, a + 1, p, Pass(phase, pat[a]));
    } else {
      assert pat[a..p] == [];
    }
  }

  lemma SafeHere(pat: string, str: string, p: nat, s: nat, star: Star)
    requires InBounds(pat, str, p, s, star) && Segment(pat, str, p, s, star) && Fine(pat, str, p, star)
    ensures Flat(pat, str) || StarsSafe(pat[p..], PhaseAt(pat, p, star))
  {
    if !Flat(pat, str) && star.Star? {
      var a := After(pat, star);
      SafeAlong(pat, a, p, if star.double then AfterDouble else Open);
      ThroughStays(pat[a..p], AfterDouble);
    }
  }

  // ---- the last star is the only one worth trying again ----

  lemma NoSlash(str: string, lo: nat, hi: nat)
    requires lo <= hi <= |str| && '/' !in str[lo..hi]
    ensures forall j :: lo <= j < hi ==> str[j] != '/'
  {
    assert forall j :: lo <= j < hi ==> str[j] in str[lo..hi];
  }

  /** The stretch fits the string at `from`, character by character. */
  predicate FitsAt(str: string, seg: string, from: nat) {
    from + |seg| <= |str| && forall i :: 0 <= i < |seg| ==> seg[i] == '?' || seg[i] == str[from + i]
  }

  /** A '/' in the stretch after a `*`, before any '?', puts that '/' in front of every later place for it. */
  lemma SlashPinsSegment(str: string, seg: string, from: nat, k: nat, i: nat)
    requires from < k <= |str| && FitsAt(str, seg, from) && FitsAt(str, seg, k) && Pins(seg, i)
    ensures '/' in str[from..k]
  {
    forall j | k <= j < k + i
      ensures str[j] != '/'
    {
      assert seg[j - k] == str[k + (j - k)];
    }
    assert str[from + i] == '/';
    assert str[from..k][i] == '/';
  }

  /** A later place for an open stretch leaves only text without '/' between the two. */
  lemma SegmentShiftIsFlat(str: string, seg: string, from: nat, k: nat)
    requires from < k && FitsAt(str, seg, from) && FitsAt(str, seg, k)
    requires k <= |str| && '/' !in str[from..k]
    requires forall i :: 0 <= i < |seg| ==> seg[i] != '?' && seg[i] != '/'
    ensures forall j :: from + |seg| <= j < k + |seg| ==> str[j] != '/'
  {
    NoSlash(str, from, k);
    forall j | from + |seg| <= j < k + |seg|
      ensures str[j] != '/'
    {
      if j >= k {
        assert seg[j - k] == str[k + (j - k)];
      }
    }
  }

  ghost predicate CoversFrom(pat: string, str: string, star: Star, m: nat, k: nat)
    requires star.Star? && After(pat, star) <= |pat|
  {
    m <= k <= |str| && (star.double || '/' !in str[m..k]) && Matches(pat[After(pat, star)..], str[k..])
  }

  /** The star at `p` covers some text from `m` on, and the pattern after it the rest. */
  lemma TokenCovers(pat: string, str: string, star: Star, m: nat)
    requires star.Star? && star.at < After(pat, star) <= |pat| && pat[star.at] == '*' && m <= |str|
    requires star.double <==> Doubled(pat[star.at..])
    requires Matches(pat[star.at..], str[m..])
    requires '/' !in pat || exists phase :: StarsSafe(pat[star.at..], phase)
    ensures exists k: nat :: CoversFrom(pat, str, star, m, k)
  {
    var q, t := pat[star.at..], str[m..];
    if star.double {
      var phase :| '/' !in pat || StarsSafe(q, phase);
      DoubleCovers(q, t, phase);
      var k :| 0 <= k <= |t| && Matches(Rest(q), t[k..]);
      assert Rest(q) == pat[After(pat, star)..] && t[k..] == str[m + k..];
      assert CoversFrom(pat, str, star, m, m + k);
    } else {
      var k :| 0 <= k <= |t| && '/' !in t[..k] && Matches(q[1..], t[k..]);
      assert q[1..] == pat[After(pat, star)..] && t[k..] == str[m + k..] && t[..k] == str[m..m + k];
      assert CoversFrom(pat, str, star, m, m + k);
    }
  }

  lemma StarIsSafe(q: string, phase: Phase)
    requires q != [] && q[0] == '*' && !Doubled(q) && StarsSafe(q, phase)
    ensures phase == Free || phase == Open
  {
  }

  lemma SegmentFits(pat: string, str: string, p: nat, s: nat, star: Star, k: nat)
    requires InBounds(pat, str, p, s, star) && Segment(pat, str, p, s, star) && star.Star?
    requires star.from < k <= |str| && LaterAt(pat, str, star, k)
    ensures FitsAt(str, pat[After(pat, star)..p], star.from) && FitsAt(str, pat[After(pat, star)..p], k)
  {
    hide Matches;
    var a := After(pat, star);
    var seg := pat[a..p];
    SegmentCovers(pat, a, p, str[k..]);
    forall i | 0 <= i < |seg|
      ensures seg[i] == '?' || (seg[i] == str[star.from + i] && seg[i] == str[k + i])
    {
      assert seg[i] == pat[a + i] && str[k..][i] == str[k + i];
    }
  }

  lemma FlatText(pat: string, str: string)
    requires Flat(pat, str)
    ensures forall j :: 0 <= j < |str| ==> str[j] != '/'
  {
  }

  /** A later place for the last star's text that reaches the next star moves only flat text over to it. */
  lemma ShiftedSegment(pat: string, str: string, p: nat, s: nat, star: Star, k: nat)
    requires InBounds(pat, str, p, s, star) && Segment(pat, str, p, s, star) && Fine(pat, str, p, star)
    requires star.Star? && star.from < k <= |str| && LaterAt(pat, str, star, k)
    ensures var m := k + (p - After(pat, star)); s < m <= |str| && Matches(pat[p..], str[m..])
    ensures p < |pat| && pat[p] == '*' && !Doubled(pat[p..]) ==>
              forall j :: s <= j < k + (p - After(pat, star)) ==> str[j] != '/'
  {
    hide Matches, StarsSafe, EndsInCollapse, Flat;
    var a := After(pat, star);
    var len := p - a;
    SegmentCovers(pat, a, p, str[k..]);
    assert str[k..][len..] == str[k + len..];
    SafeHere(pat, str, p, s, star);
    if p < |pat| && pat[p] == '*' && !Doubled(pat[p..]) && !Flat(pat, str) {
      var seg := pat[a..p];
      StarIsSafe(pat[p..], PhaseAt(pat, p, star));
      ThroughMeans(seg);
      SegmentFits(pat, str, p, s, star, k);
      if Through(seg, Open) == Free {
        var i :| Pins(seg, i);
        SlashPinsSegment(str, seg, star.from, k, i);
      } else {
        SegmentShiftIsFlat(str, seg, star.from, k);
      }
    }
    if Flat(pat, str) {
      FlatText(pat, str);
    }
  }

  /** Passing a new star loses no reading. */
  lemma NewStarKeeps(pat: string, str: string, p: nat, s: nat, star: Star, next: Star)
    requires InBounds(pat, str, p, s, star) && Segment(pat, str, p, s, star) && Fine(pat, str, p, star)
    requires next.Star? && next.at == p && next.from == s && InBounds(pat, str, After(pat, next), s, next)
    requires Matches(pat[p..], str[s..]) || Later(pat, str, star)
    ensures Matches(pat[After(pat, next)..], str[s..]) || Later(pat, str, next)
  {
    hide Matches, StarsSafe, Segment;
    SafeHere(pat, str, p, s, star);
    if Matches(pat[p..], str[s..]) {
      TokenCovers(pat, str, next, s);
      var k: nat :| CoversFrom(pat, str, next, s, k);
      if k > s {
        assert LaterAt(pat, str, next, k);
      }
    } else {
      var k2 :| star.from < k2 <= |str| && LaterAt(pat, str, star, k2);
      ShiftedSegment(pat, str, p, s, star, k2);
      var m := k2 + (p - After(pat, star));
      TokenCovers(pat, str, next, m);
      var k: nat :| CoversFrom(pat, str, next, m, k);
      if !next.double {
        NoSlash(str, m, k);
      }
      assert LaterAt(pat, str, next, k);
    }
  }

  /** The order of the remaining stars is as good after a new one. */
  lemma NewStarFine(pat: string, str: string, p: nat, s: nat, star: Star, next: Star)
    requires InBounds(pat, str, p, s, star) && Segment(pat, str, p, s, star) && Fine(pat, str, p, star)
    requires next.Star? && next.at == p && next.from == s && InBounds(pat, str, After(pat, next), s, next)
    ensures Fine(pat, str, After(pat, next), next)
  {
    SafeHere(pat, str, p, s, star);
    var q := pat[p..];
    if next.double {
      assert Rest(q) == pat[After(pat, next)..];
    } else {
      assert q[1..] == pat[p + 1..];
    }
  }

  /** At the end of the string, only stars may be left, and the last star has no later place. */
  lemma NothingLeft(pat: string, str: string, p: nat, star: Star)
    requires InBounds(pat, str, p, |str|, star) && Segment(pat, str, p, |str|, star) && Fine(pat, str, p, star)
    requires Matches(pat[p..], []) || Later(pat, str, star)
    ensures StarsOnly(pat[p..])
  {
    hide Matches, StarsSafe;
    if Matches(pat[p..], []) {
      if !StarsOnly(pat[p..]) {
        EmptyMatch(pat[p..]);
        EndsInSuffix(pat, p);
        CollapseHasSlash(pat);
      }
    } else {
      var k :| star.from < k <= |str| && LaterAt(pat, str, star, k);
      SegmentCovers(pat, After(pat, star), p, str[k..]);
    }
  }

  lemma CollapseHasSlash(pat: string)
    requires EndsInCollapse(pat)
    ensures '/' in pat
  {
    var i :| 0 <= i <= |pat| - 3 && Collapsing(pat[i..]) && StarsOnly(pat[i + 3..]);
    assert pat[i..][2] == pat[i + 2];
  }

  /** One more character of text for the last star keeps every reading that is left. */
  lemma BackKeeps(pat: string, str: string, star: Star)
    requires star.Star? && After(pat, star) <= |pat| && star.from < |str| && Later(pat, str, star)
    ensures star.double || str[star.from] != '/'
    ensures Matches(pat[After(pat, star)..], str[star.from + 1..]) || Later(pat, str, star.(from := star.from + 1))
  {
    hide Matches;
    var k :| star.from < k <= |str| && LaterAt(pat, str, star, k);
    assert str[star.from..k][0] == str[star.from];
    assert str[star.from..k][1..] == str[star.from + 1..k];
    assert k > star.from + 1 ==> LaterAt(pat, str, star.(from := star.from + 1), k);
  }

  lemma StuckHere(pat: string, str: string, p: nat, s: nat)
    requires p <= |pat| && s < |str| && Matches(pat[p..], str[s..])
    ensures p < |pat| && (pat[p] == '*' || pat[p] == '?' || pat[p] == str[s])
    ensures pat[p] != '*' ==> Matches(pat[p + 1..], str[s + 1..])
  {
    if p < |pat| {
      assert pat[p..][1..] == pat[p + 1..] && str[s..][1..] == str[s + 1..];
    }
  }

  lemma LaterHasStar(pat: string, str: string, star: Star)
    requires (star.Star? ==> After(pat, star) <= |pat|) && Later(pat, str, star)
    ensures star.Star? && star.from < |str|
  {
  }

  /** A matched character keeps the state in order and every reading that is left. */
  lemma StepKeeps(pat: string, str: string, p: nat, s: nat, star: Star)
    requires InBounds(pat, str, p, s, star) && Segment(pat, str, p, s, star) && Fine(pat, str, p, star)
    requires p < |pat| && s < |str| && (pat[p] == '?' || pat[p] == str[s])
    ensures Segment(pat, str, p + 1, s + 1, star) && Fine(pat, str, p + 1, star)
    ensures Matches(pat[p..], str[s..]) ==> Matches(pat[p + 1..], str[s + 1..])
  {
    assert str[s] in str;
    assert pat[p..][1..] == pat[p + 1..];
    if Matches(pat[p..], str[s..]) {
      StuckHere(pat, str, p, s);
    }
  }

  lemma {:induction false} ScanIsComplete(pat: string, str: string, p: nat, s: nat, star: Star)
    requires InBounds(pat, str, p, s, star) && Segment(pat, str, p, s, star) && Fine(pat, str, p, star)
    requires Matches(pat[p..], str[s..]) || Later(pat, str, star)
    ensures Scan(pat, str, p, s, star)
    decreases StarsLeft(pat, star), if star.Star? then |str| - star.from else 0, |str| - s
  {
    hide Matches, StarsSafe, Later, Flat, EndsInCollapse;
    if s == |str| {
      assert str[s..] == [];
      NothingLeft(pat, str, p, star);
    } else if p < |pat| && (pat[p] == '?' || pat[p] == str[s]) {
      StepKeeps(pat, str, p, s, star);
      ScanIsComplete(pat, str, p + 1, s + 1, star);
    } else if p < |pat| && pat[p] == '*' {
      var next := Star(p, s, p + 1 < |pat| && pat[p + 1] == '*');
      NewStarFine(pat, str, p, s, star, next);
      NewStarKeeps(pat, str, p, s, star, next);
      ScanIsComplete(pat, str, After(pat, next), s, next);
    } else {
      if Matches(pat[p..], str[s..]) {
        StuckHere(pat, str, p, s);
      }
      LaterHasStar(pat, str, star);
      BackKeeps(pat, str, star);
      ScanIsComplete(pat, str, After(pat, star), star.from + 1, star.(from := star.from + 1));
    }
  }

  /** On strings without '*' the scan reports exactly the matches, if no slashes are involved, or if the
      pattern has no `*` after a `**`, none after a `*` and a '?', and no `**` that takes a final '/'. */
  lemma GlobIsExact(pat: string, str: string)
    requires Handled(pat, str)
    ensures GlobAnswer(pat, str) <==> Matches(pat, str)
  {
    hide Matches, Scan, StarsSafe;
    assert pat[0..] == pat && str[0..] == str;
    if Matches(pat, str) {
      ScanIsComplete(pat, str, 0, 0, NoStar);
    }
    if GlobAnswer(pat, str) {
      GlobIsSound(pat, str);
    }
  }

  // ---- a pattern that ends in a collapsing `**` ----

  /** A shortest text that the pattern matches: nothing for the stars, one character for each other. */
  function Least(q: string): string
    decreases |q|
  {
    if q == [] then []
    else if Collapsing(q) then Least(q[3..])
    else if q[0] == '*' then Least(q[1..])
    else [if q[0] == '?' then 'x' else q[0]] + Least(q[1..])
  }

  lemma CollapseAhead(pat: string, str: string)
    requires Collapsing(pat) && Matches(pat[3..], str)
    ensures Matches(pat, str)
  {
    assert str[0..] == str;
  }

  lemma {:induction false} LeastMatches(q: string, g: string)
    requires Matches(g, [])
    ensures Matches(q + g, Least(q)) && '*' !in Least(q)
    decreases |q|
  {
    hide Matches;
    var all := q + g;
    if q == [] {
      assert all == g;
    } else if Collapsing(q) {
      LeastMatches(q[3..], g);
      assert all[3..] == q[3..] + g;
      CollapseAhead(all, Least(q[3..]));
    } else {
      LeastMatches(q[1..], g);
      assert all[1..] == q[1..] + g && all == [q[0]] + all[1..];
      if q[0] == '*' {
        EmptyStar(all, Least(q[1..]));
      } else {
        CharAhead(q[0], if q[0] == '?' then 'x' else q[0], all[1..], Least(q[1..]));
      }
    }
  }

  /** Passing a `**` leaves no less to match than there was. */
  lemma LeastAfterDouble(q: string)
    requires Doubled(q)
    ensures |Least(q)| <= |Least(Rest(q))|
  {
    var r := q[1..];
    assert r[1..] == q[2..];
    if !Collapsing(q) && Collapsing(r) {
      assert r[3..] == q[4..] && q[2..][1..] == q[3..] && q[3..][1..] == q[4..];
      assert Least(q[2..]) == Least(q[3..]) == [q[3]] + Least(q[4..]);
    }
  }

  /** While at least as much of `pat[..i]` is to be matched as there is text left, the scan does not get past
      the '/' behind the `**` at `i`. */
  lemma {:induction false} ScanStopsShort(pat: string, i: nat, str: string, p: nat, s: nat, star: Star)
    requires i + 3 <= |pat| && Collapsing(pat[i..]) && '*' !in str
    requires InBounds(pat, str, p, s, star) && p <= i && |str| - s <= |Least(pat[p..i])|
    requires star.Star? ==> After(pat, star) <= i && |str| - star.from <= |Least(pat[After(pat, star)..i])|
    ensures !Scan(pat, str, p, s, star)
    decreases StarsLeft(pat, star), if star.Star? then |str| - star.from else 0, |str| - s
  {
    hide Least;
    if s == |str| {
      assert pat[i..][2] == '/' && pat[p..][i + 2 - p] == pat[i + 2];
    } else {
      LeastStep(pat, i, p, s);
      if pat[p] == '?' || pat[p] == str[s] {
        assert str[s] in str;
        ScanStopsShort(pat, i, str, p + 1, s + 1, star);
      } else if pat[p] == '*' {
        var next := Star(p, s, p + 1 < |pat| && pat[p + 1] == '*');
        ScanStopsShort(pat, i, str, After(pat, next), s, next);
      } else if star.Star? && (star.double || str[star.from] != '/') {
        ScanStopsShort(pat, i, str, After(pat, star), star.from + 1, star.(from := star.from + 1));
      }
    }
  }

  /** Where something of `pat[..i]` is left to match: a character takes one, and a star stops before `i`. */
  lemma LeastStep(pat: string, i: nat, p: nat, from: nat)
    requires i + 3 <= |pat| && Collapsing(pat[i..]) && p <= i && Least(pat[p..i]) != []
    ensures p < i
    ensures pat[p] != '*' ==> |Least(pat[p..i])| == 1 + |Least(pat[p + 1..i])|
    ensures pat[p] == '*' ==>
              var next := Star(p, from, pat[p + 1] == '*');
              After(pat, next) <= i && |Least(pat[p..i])| <= |Least(pat[After(pat, next)..i])|
  {
    var q := pat[p..i];
    assert q[1..] == pat[p + 1..i];
    if pat[p] == '*' && pat[p + 1] == '*' {
      ShortStars(q);
      assert q[1] == pat[p + 1] && (|q| > 2 ==> q[2] == pat[p + 2]);
      assert pat[i..][0] == pat[i];
      LeastAfterDouble(q);
      assert q[2..] == pat[p + 2..i] && (|q| > 2 ==> q[3..] == pat[p + 3..i]);
    }
  }

  lemma ShortStars(q: string)
    requires q != [] && q[0] == '*' && Least(q) != []
    ensures |q| > 1 && (q[1] == '*' ==> |q| > 2)
  {
  }

  /** Every pattern that ends in a `**` with its '/' misses a match: the shortest text of what comes before. */
  lemma CollapseAlwaysMisses(pat: string)
    requires EndsInCollapse(pat)
    ensures exists str :: '*' !in str && Matches(pat, str) && !GlobAnswer(pat, str)
  {
    hide Matches, Scan, Least;
    var i :| 0 <= i <= |pat| - 3 && Collapsing(pat[i..]) && StarsOnly(pat[i + 3..]);
    var str := Least(pat[..i]);
    CollapseMatchesNothing(pat[i..]);
    LeastMatches(pat[..i], pat[i..]);
    assert pat[..i] + pat[i..] == pat && pat[0..i] == pat[..i];
    ScanStopsShort(pat, i, str, 0, 0, NoStar);
    assert !GlobAnswer(pat, str);
  }

  lemma CollapseMatchesNothing(g: string)
    requires Collapsing(g) && StarsOnly(g[3..])
    ensures Matches(g, [])
  {
    StarsMatchNothing(g[3..]);
    var none: string := [];
    assert none[0..] == none;
  }

  /** A pattern whose stars come in a safe order is scanned exactly, on every string without a star, if and
      only if it does not end in a `**` that takes a '/' along. */
  lemma SafePatternsAreExact(pat: string)
    requires StarsSafe(pat, Free)
    ensures (forall str :: '*' !in str ==> (GlobAnswer(pat, str) <==> Matches(pat, str))) <==> !EndsInCollapse(pat)
  {
    hide Matches, GlobAnswer, StarsSafe, EndsInCollapse;
    if EndsInCollapse(pat) {
      CollapseAlwaysMisses(pat);
    } else {
      forall str | '*' !in str
        ensures GlobAnswer(pat, str) <==> Matches(pat, str)
      {
        GlobIsExact(pat, str);
      }
    }
  }

  // ---- what happens otherwise ----

  /** A star covers any text without '/' in front of what the rest of the pattern matches. */
  lemma StarAhead(text: string, pat: string, str: string)
    requires '/' !in text && Matches(pat, str)
    ensures Matches("*" + pat, text + str)
  {
    var q, t := "*" + pat, text + str;
    assert q[1..] == pat && t[|text|..] == str && t[..|text|] == text;
  }

  lemma DoubleAhead(text: string, pat: string, str: string)
    requires Matches(pat, str)
    ensures Matches("**" + pat, text + str)
  {
    var q, t := "**" + pat, text + str;
    assert q[2..] == pat && t[|text|..] == str;
  }

  lemma CharAhead(c: char, d: char, pat: string, str: string)
    requires (c == '?' || c == d) && c != '*' && Matches(pat, str)
    ensures Matches([c] + pat, [d] + str)
  {
    assert ([c] + pat)[1..] == pat && ([d] + str)[1..] == str;
  }

  lemma MissesLiteralStar()
    ensures Matches("*", "*a")
  {
    hide Matches;
    EndCases();
    StarAhead("*a", "", "");
    assert "*" + "" == "*" && "*a" + "" == "*a";
  }

  lemma MissesStarAfterDouble()
    ensures Matches("**a*b", "a/ab")
  {
    hide Matches;
    EndCases();
    StarAhead("", "b", "b");
    assert "*" + "b" == "*b" && "" + "b" == "b";
    CharAhead('a', 'a', "*b", "b");
    assert ['a'] + "*b" == "a*b" && ['a'] + "b" == "ab";
    DoubleAhead("a/", "a*b", "ab");
    assert "**" + "a*b" == "**a*b" && "a/" + "ab" == "a/ab";
  }

  lemma MissesQuestionBetweenStars()
    ensures Matches("*?*b", "a/b")
  {
    hide Matches;
    EndCases();
    StarAhead("", "b", "b");
    assert "*" + "b" == "*b" && "" + "b" == "b";
    CharAhead('?', '/', "*b", "b");
    assert ['?'] + "*b" == "?*b" && ['/'] + "b" == "/b";
    StarAhead("a", "?*b", "/b");
    assert "*" + "?*b" == "*?*b" && "a" + "/b" == "a/b";
  }

  lemma MissesFinalCollapse()
    ensures Matches("a**/", "a")
  {
    hide Matches;
    EndCases();
    CharAhead('a', 'a', "**/", "");
    assert ['a'] + "**/" == "a**/" && ['a'] + "" == "a";
  }

  /** Each condition is needed: a star in the string, a `*` after a `**`, a '?' between two stars, and a
      final `**` with its '/' each lead to a match that the scan misses. */
  lemma ScanCanMiss()
    ensures !GlobAnswer("*", "*a") && Matches("*", "*a")
    ensures !GlobAnswer("**a*b", "a/ab") && Matches("**a*b", "a/ab")
    ensures !GlobAnswer("*?*b", "a/b") && Matches("*?*b", "a/b")
    ensures !GlobAnswer("a**/", "a") && Matches("a**/", "a")
  {
    hide Matches, GlobAnswer;
    AnswersNo();
    MissesLiteralStar();
    MissesStarAfterDouble();
    MissesQuestionBetweenStars();
    MissesFinalCollapse();
  }

  lemma EndCases()
    ensures Matches("", "") && Matches("b", "b") && Matches("**/", "")
  {
    CharAhead('b', 'b', "", "");
    assert ['b'] + "" == "b";
    var q, none: string := "**/", [];
    assert q[3..] == [] && none[0..] == [] && Collapsing(q);
  }

  lemma AnswersNo()
    ensures !GlobAnswer("*", "*a") && !GlobAnswer("**a*b", "a/ab")
    ensures !GlobAnswer("*?*b", "a/b") && !GlobAnswer("a**/", "a")
  {
    assert "a**/"[1..][2] == '/';
  }
}
