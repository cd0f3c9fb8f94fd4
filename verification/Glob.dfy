/** The ignore rules' glob matcher: a greedy scan that backtracks to the last star only, against a
    declarative meaning of patterns. */
module Glob {
  // ---- what a pattern means ----

  /** Some way of reading the pattern covers the whole string: `*` covers text without '/', `**` covers any
      text and may take a following '/' with it, `?` covers one character, others cover themselves. */
  ghost predicate Matches(pat: string, str: string)
    decreases |pat|
  {
    if pat == [] then str == []
    else if pat[0] == '*' then
      || (exists k :: 0 <= k <= |str| && '/' !in str[..k] && Matches(pat[1..], str[k..]))
      || (Doubled(pat) && exists k :: 0 <= k <= |str| && Matches(pat[2..], str[k..]))
      || (Collapsing(pat) && exists k :: 0 <= k <= |str| && Matches(pat[3..], str[k..]))
    else str != [] && (pat[0] == '?' || pat[0] == str[0]) && Matches(pat[1..], str[1..])
  }

  predicate Doubled(pat: string) { |pat| >= 2 && pat[0] == '*' && pat[1] == '*' }

  predicate Collapsing(pat: string) { |pat| >= 3 && pat[0] == '*' && pat[1] == '*' && pat[2] == '/' }

  // ---- the scan ----

  /** The last star passed: where it stands in the pattern, where its text begins, and whether it is double. */
  datatype Star = NoStar | Star(at: nat, from: nat, double: bool)

  predicate StarsOnly(pat: string) { forall i :: 0 <= i < |pat| ==> pat[i] == '*' }

  /** Where the scan goes on after a star. */
  function After(pat: string, star: Star): nat
    requires star.Star?
  {
    if !star.double then star.at + 1
    else if star.at + 2 < |pat| && pat[star.at + 2] == '/' then star.at + 3
    else star.at + 2
  }

  predicate InBounds(pat: string, str: string, p: nat, s: nat, star: Star) {
    && p <= |pat| && s <= |str|
    && (star.Star? ==> && star.at < After(pat, star) <= p && star.from <= s && pat[star.at] == '*'
                       && (if star.double then pat[star.at + 1] == '*' else !Doubled(pat[star.at..])))
  }

  function StarsLeft(pat: string, star: Star): nat
    requires star.Star? ==> star.at < |pat|
  {
    if star.Star? then |pat| - star.at else |pat| + 1
  }

  /** The scan from pattern position `p` and string position `s`. */
  predicate Scan(pat: string, str: string, p: nat, s: nat, star: Star)
    requires InBounds(pat, str, p, s, star)
    decreases StarsLeft(pat, star), if star.Star? then |str| - star.from else 0, |str| - s
  {
    if s == |str| then StarsOnly(pat[p..])
    else if p < |pat| && (pat[p] == '?' || pat[p] == str[s]) then Scan(pat, str, p + 1, s + 1, star)
    else if p + 1 < |pat| && pat[p] == '*' && pat[p + 1] == '*' then
      Scan(pat, str, After(pat, Star(p, s, true)), s, Star(p, s, true))
    else if p < |pat| && pat[p] == '*' then Scan(pat, str, p + 1, s, Star(p, s, false))
    else if star.NoStar? || (!star.double && str[star.from] == '/') then false
    else Scan(pat, str, After(pat, star), star.from + 1, star.(from := star.from + 1))
  }

  predicate GlobAnswer(pat: string, str: string) { Scan(pat, str, 0, 0, NoStar) }

  method GlobMatch(pat: string, str: string) returns (matched: bool)
    ensures matched == GlobAnswer(pat, str)
  {
    hide StarsOnly;
    var p, s := 0, 0;
    var starP, starS, doubleStar := -1, 0, false;
    while s < |str|
      invariant -1 <= starP < |pat|
      invariant starP < 0 ==> starS == 0
      invariant InBounds(pat, str, p, s, StarOf(starP, starS, doubleStar))
      invariant Scan(pat, str, p, s, StarOf(starP, starS, doubleStar)) == GlobAnswer(pat, str)
      decreases StarsLeft(pat, StarOf(starP, starS, doubleStar)), |str| - starS, |str| - s
    {
      if p < |pat| && (pat[p] == '?' || pat[p] == str[s]) {
        p, s := p + 1, s + 1;
      } else if p + 1 < |pat| && pat[p] == '*' && pat[p + 1] == '*' {
        starP, starS, doubleStar := p, s, true;
        p := p + 2;
        if p < |pat| && pat[p] == '/' {
          p := p + 1;
        }
      } else if p < |pat| && pat[p] == '*' {
        starP, starS, doubleStar := p, s, false;
        p := p + 1;
      } else if starP >= 0 {
        if !doubleStar && str[starS] == '/' {
          return false;
        }
        starS := starS + 1;
        p := if doubleStar && starP + 2 < |pat| && pat[starP + 2] == '/' then starP + 3
             else starP + (if doubleStar then 2 else 1);
        s := starS;
      } else {
        return false;
      }
    }
    matched := OnlyStarsFrom(pat, p);
  }

  /** Whether only stars are left. */
  method OnlyStarsFrom(pat: string, start: nat) returns (only: bool)
    requires start <= |pat|
    ensures only == StarsOnly(pat[start..])
  {
    var p := start;
    while p < |pat| && pat[p] == '*'
      invariant start <= p <= |pat|
      invariant forall i :: start <= i < p ==> pat[i] == '*'
    {
      p := p + 1;
    }
    assert p < |pat| ==> pat[start..][p - start] == pat[p];
    return p == |pat|;
  }

  function StarOf(starP: int, starS: nat, doubleStar: bool): Star {
    if starP < 0 then NoStar else Star(starP, starS, doubleStar)
  }

  // ---- every yes has a reading ----

  /** The last star could still cover more: a reading exists that begins its text earlier than it ends now. */
  ghost predicate Later(pat: string, str: string, star: Star)
    requires star.Star? ==> After(pat, star) <= |pat|
  {
    star.Star? && exists k :: star.from < k <= |str| && LaterAt(pat, str, star, k)
  }

  ghost predicate LaterAt(pat: string, str: string, star: Star, k: nat)
    requires star.Star? && After(pat, star) <= |pat| && star.from < k <= |str|
  {
    (star.double || '/' !in str[star.from..k]) && Matches(pat[After(pat, star)..], str[k..])
  }

  lemma {:induction false} StarsMatchNothing(pat: string)
    requires StarsOnly(pat)
    ensures Matches(pat, [])
  {
    if pat != [] {
      StarsMatchNothing(pat[1..]);
      var none: string := [];
      assert none[0..] == [] && none[..0] == [];
    }
  }

  /** A star that is about to be passed covers whatever the scan makes it cover. */
  lemma StarCovers(pat: string, str: string, p: nat, s: nat, star: Star, k: nat)
    requires star.Star? && star.at == p && star.from == s && InBounds(pat, str, After(pat, star), s, star)
    requires s <= k <= |str| && (star.double || '/' !in str[s..k]) && Matches(pat[After(pat, star)..], str[k..])
    ensures Matches(pat[p..], str[s..])
  {
    var q, t := pat[p..], str[s..];
    assert t[k - s..] == str[k..] && t[..k - s] == str[s..k];
    if !star.double {
      assert q[1..] == pat[After(pat, star)..];
    } else if Collapsing(q) {
      assert q[3..] == pat[After(pat, star)..];
    } else {
      assert q[2..] == pat[After(pat, star)..];
    }
  }

  lemma {:induction false} ScanIsSound(pat: string, str: string, p: nat, s: nat, star: Star)
    requires InBounds(pat, str, p, s, star) && Scan(pat, str, p, s, star)
    ensures Matches(pat[p..], str[s..]) || Later(pat, str, star)
    decreases StarsLeft(pat, star), if star.Star? then |str| - star.from else 0, |str| - s
  {
    hide Matches;
    if s == |str| {
      StarsMatchNothing(pat[p..]);
      assert str[s..] == [];
    } else if p < |pat| && (pat[p] == '?' || pat[p] == str[s]) {
      ScanIsSound(pat, str, p + 1, s + 1, star);
      if Matches(pat[p + 1..], str[s + 1..]) {
        OneMore(pat, str, p, s);
      }
    } else if p + 1 < |pat| && pat[p] == '*' && pat[p + 1] == '*' {
      ScanIsSound(pat, str, After(pat, Star(p, s, true)), s, Star(p, s, true));
      NewStarSound(pat, str, p, s, Star(p, s, true));
    } else if p < |pat| && pat[p] == '*' {
      ScanIsSound(pat, str, p + 1, s, Star(p, s, false));
      NewStarSound(pat, str, p, s, Star(p, s, false));
    } else {
      var star' := star.(from := star.from + 1);
      ScanIsSound(pat, str, After(pat, star), star.from + 1, star');
      BackSound(pat, str, star);
    }
  }

  lemma OneMore(pat: string, str: string, p: nat, s: nat)
    requires p < |pat| && s < |str| && (pat[p] == '?' || pat[p] == str[s])
    requires Matches(pat[p + 1..], str[s + 1..])
    ensures Matches(pat[p..], str[s..])
  {
    var q, t := pat[p..], str[s..];
    assert q[1..] == pat[p + 1..] && t[1..] == str[s + 1..];
    if q[0] == '*' {
      assert t[..1] == "*";
    }
  }

  lemma NewStarSound(pat: string, str: string, p: nat, s: nat, star: Star)
    requires star.Star? && star.at == p && star.from == s && InBounds(pat, str, After(pat, star), s, star)
    requires Matches(pat[After(pat, star)..], str[s..]) || Later(pat, str, star)
    ensures Matches(pat[p..], str[s..])
  {
    hide Matches;
    if Matches(pat[After(pat, star)..], str[s..]) {
      StarCovers(pat, str, p, s, star, s);
    } else {
      var k :| star.from < k <= |str| && LaterAt(pat, str, star, k);
      StarCovers(pat, str, p, s, star, k);
    }
  }

  /** Letting a star cover one more character is among what it could still cover. */
  lemma BackSound(pat: string, str: string, star: Star)
    requires star.Star? && After(pat, star) <= |pat| && star.from < |str| && (star.double || str[star.from] != '/')
    requires var next := star.(from := star.from + 1);
             Matches(pat[After(pat, star)..], str[star.from + 1..]) || Later(pat, str, next)
    ensures Later(pat, str, star)
  {
    hide Matches;
    var next := star.(from := star.from + 1);
    if Matches(pat[After(pat, star)..], str[star.from + 1..]) {
      assert LaterAt(pat, str, star, star.from + 1);
    } else {
      var k :| next.from < k <= |str| && LaterAt(pat, str, next, k);
      assert str[star.from..k] == [str[star.from]] + str[next.from..k];
      assert LaterAt(pat, str, star, k);
    }
  }

  /** Every match the program reports is one by some reading of the pattern. */
  lemma GlobIsSound(pat: string, str: string)
    requires GlobAnswer(pat, str)
    ensures Matches(pat, str)
  {
    hide Matches, Scan;
    ScanIsSound(pat, str, 0, 0, NoStar);
    assert pat[0..] == pat && str[0..] == str;
  }
}
