/** The change feed: paging with a cursor, and catching up from a snapshot. */
module Feed {
  import opened Store

  const PAGE_LIMIT := 1000

  /** The cursor a page hands back: the largest change number on it, or the old cursor. */
  function LatestSeq(page: seq<Change>, since: int): int {
    if page == [] then since
    else
      var m := LatestSeq(page[..|page| - 1], since);
      if page[|page| - 1].seqNo > m then page[|page| - 1].seqNo else m
  }

  /** Rounds of store operations, each followed by one poll that moves the cursor on. */
  function Polls(d: Data, account: AccountId, since: int, limit: int, rounds: seq<seq<Op>>): (seq<Change>, int, Data)
    decreases |rounds|
  {
    if rounds == [] then ([], since, d)
    else
      var now := Run(d, rounds[0]);
      var page := ListChangesSince(now, account, since, limit);
      var (rest, cursor, end) := Polls(now, account, LatestSeq(page, since), limit, rounds[1..]);
      (page + rest, cursor, end)
  }

  // ---- filtering ----

  ghost predicate Ascending(cs: seq<Change>) {
    forall i, j :: 0 <= i < j < |cs| ==> cs[i].seqNo < cs[j].seqNo
  }

  lemma {:induction false} AfterAppend(a: seq<Change>, b: seq<Change>, account: AccountId, since: int)
    ensures ChangesAfter(a + b, account, since) == ChangesAfter(a, account, since) + ChangesAfter(b, account, since)
  {
    if b == [] {
      assert a + b == a;
    } else {
      var n := |b| - 1;
      assert (a + b)[..|a| + n] == a + b[..n];
      AfterAppend(a, b[..n], account, since);
    }
  }

  /** Whether the filter lets one change through. */
  predicate Passes(c: Change, account: AccountId, since: int) {
    c.key.account == account && c.seqNo > since
  }

  lemma AfterSnoc(cs: seq<Change>, account: AccountId, since: int)
    requires cs != []
    ensures var front, c := cs[..|cs| - 1], cs[|cs| - 1];
            && cs == front + [c]
            && ChangesAfter(cs, account, since) ==
               if Passes(c, account, since) then ChangesAfter(front, account, since) + [c]
               else ChangesAfter(front, account, since)
  {
  }

  lemma {:induction false} AfterContains(cs: seq<Change>, account: AccountId, since: int)
    ensures forall c :: c in ChangesAfter(cs, account, since) <==> c in cs && Passes(c, account, since)
  {
    if cs != [] {
      AfterContains(cs[..|cs| - 1], account, since);
      AfterSnoc(cs, account, since);
      hide ChangesAfter, Passes;
    }
  }

  lemma {:induction false} AfterAscending(cs: seq<Change>, account: AccountId, since: int)
    requires Ascending(cs)
    ensures Ascending(ChangesAfter(cs, account, since))
  {
    if cs != [] {
      var front := cs[..|cs| - 1];
      AfterAscending(front, account, since);
      AfterSnoc(cs, account, since);
      AfterContains(front, account, since);
      AscendingSnoc(ChangesAfter(front, account, since), cs[|cs| - 1]);
    }
  }

  lemma AscendingSnoc(cs: seq<Change>, c: Change)
    requires Ascending(cs)
    ensures (forall x <- cs :: x.seqNo < c.seqNo) ==> Ascending(cs + [c])
  {
  }

  /** A later cursor filters what an earlier cursor left through. */
  lemma {:induction false} AfterTwice(cs: seq<Change>, account: AccountId, since: int, later: int)
    requires since <= later
    ensures ChangesAfter(ChangesAfter(cs, account, since), account, later) == ChangesAfter(cs, account, later)
  {
    if cs != [] {
      var n := |cs| - 1;
      AfterTwice(cs[..n], account, since, later);
      var last := if cs[n].key.account == account && cs[n].seqNo > since then [cs[n]] else [];
      AfterAppend(ChangesAfter(cs[..n], account, since), last, account, later);
      if last != [] {
        assert last[..0] == [];
      }
    }
  }

  /** Changes up to the cursor are filtered out, changes after it are all let through. */
  lemma AfterCut(cs: seq<Change>, account: AccountId, cursor: int)
    requires forall c <- cs :: c.key.account == account
    ensures (forall c <- cs :: c.seqNo <= cursor) ==> ChangesAfter(cs, account, cursor) == []
    ensures (forall c <- cs :: c.seqNo > cursor) ==> ChangesAfter(cs, account, cursor) == cs
  {
    if forall c <- cs :: c.seqNo <= cursor {
      NonePass(cs, account, cursor);
    }
    if forall c <- cs :: c.seqNo > cursor {
      AllPass(cs, account, cursor);
    }
  }

  lemma {:induction false} NonePass(cs: seq<Change>, account: AccountId, cursor: int)
    requires forall c <- cs :: !Passes(c, account, cursor)
    ensures ChangesAfter(cs, account, cursor) == []
  {
    if cs != [] {
      AfterSnoc(cs, account, cursor);
      NonePass(cs[..|cs| - 1], account, cursor);
    }
  }

  lemma {:induction false} AllPass(cs: seq<Change>, account: AccountId, cursor: int)
    requires forall c <- cs :: Passes(c, account, cursor)
    ensures ChangesAfter(cs, account, cursor) == cs
  {
    if cs != [] {
      AfterSnoc(cs, account, cursor);
      AllPass(cs[..|cs| - 1], account, cursor);
    }
  }

  /** With ascending numbers above the old cursor, the new cursor is the last number on the page. */
  lemma {:induction false} LatestIsLast(page: seq<Change>, since: int)
    requires Ascending(page) && forall c <- page :: c.seqNo > since
    ensures LatestSeq(page, since) == if page == [] then since else page[|page| - 1].seqNo
  {
    if page != [] {
      LatestIsLast(page[..|page| - 1], since);
    }
  }

  /** One page and what lies beyond the new cursor make up what lay beyond the old one. */
  lemma PageSplits(d: Data, account: AccountId, since: int, limit: int)
    requires Ascending(d.changes)
    ensures var page := ListChangesSince(d, account, since, limit);
            var cursor := LatestSeq(page, since);
            && page + ChangesAfter(d.changes, account, cursor) == ChangesAfter(d.changes, account, since)
            && since <= cursor
            && (page == [] ==> cursor == since)
            && (page != [] ==> page[|page| - 1] in d.changes && page[|page| - 1].seqNo == cursor)
            && (0 < limit && |page| < limit ==> ChangesAfter(d.changes, account, cursor) == [])
            && (0 < limit ==> |page| <= limit)
  {
    hide ChangesAfter, LatestSeq, Ascending;
    var all := ChangesAfter(d.changes, account, since);
    var page := ListChangesSince(d, account, since, limit);
    AfterContains(d.changes, account, since);
    AfterAscending(d.changes, account, since);
    PrefixAscending(all, |page|);
    assert page == all[..|page|];
    LatestIsLast(page, since);
    if page != [] {
      AfterTwice(d.changes, account, since, page[|page| - 1].seqNo);
      CutAtCursor(all, |page|, account, page[|page| - 1].seqNo);
    }
  }

  lemma PrefixAscending(cs: seq<Change>, n: nat)
    requires n <= |cs| && Ascending(cs)
    ensures Ascending(cs[..n]) && forall c <- cs[..n] :: c in cs
  {
  }

  lemma CutAtCursor(all: seq<Change>, n: nat, account: AccountId, cursor: int)
    requires 0 < n <= |all| && Ascending(all) && cursor == all[n - 1].seqNo
    requires forall c <- all :: c.key.account == account
    ensures ChangesAfter(all, account, cursor) == all[n..]
  {
    hide ChangesAfter;
    assert all == all[..n] + all[n..];
    AfterAppend(all[..n], all[n..], account, cursor);
    assert forall c <- all[..n] :: c in all && c.seqNo <= cursor;
    assert forall c <- all[n..] :: c in all && c.seqNo > cursor;
    AfterCut(all[..n], account, cursor);
    AfterCut(all[n..], account, cursor);
  }

  lemma {:induction false} AfterSame(cs: seq<Change>, account: AccountId, since: int, cursor: int)
    requires since <= cursor && forall c <- cs :: c.seqNo > cursor
    ensures ChangesAfter(cs, account, since) == ChangesAfter(cs, account, cursor)
  {
    if cs != [] {
      AfterSame(cs[..|cs| - 1], account, since, cursor);
    }
  }

  /** `got` are exactly the account's changes between the two cursors. */
  ghost predicate Delivered(d: Data, account: AccountId, since: int, cursor: int, got: seq<Change>) {
    && since <= cursor && (since == cursor || cursor < d.nextSeq)
    && got + ChangesAfter(d.changes, account, cursor) == ChangesAfter(d.changes, account, since)
  }

  /** Changes that a run adds lie beyond every cursor handed out before it. */
  lemma DeliveredLater(d: Data, d': Data, account: AccountId, since: int, cursor: int, got: seq<Change>)
    requires Extends(d, d') && Delivered(d, account, since, cursor, got)
    ensures Delivered(d', account, since, cursor, got)
  {
    hide ChangesAfter;
    var added := d'.changes[|d.changes|..];
    assert d'.changes == d.changes + added;
    AfterAppend(d.changes, added, account, since);
    AfterAppend(d.changes, added, account, cursor);
    if since < cursor {
      AfterSame(added, account, since, cursor);
    }
    assert got + (ChangesAfter(d.changes, account, cursor) + ChangesAfter(added, account, cursor)) ==
           (got + ChangesAfter(d.changes, account, cursor)) + ChangesAfter(added, account, cursor);
  }

  lemma OnePoll(d: Data, account: AccountId, since: int, limit: int)
    requires Valid(d)
    ensures var page := ListChangesSince(d, account, since, limit);
            Delivered(d, account, since, LatestSeq(page, since), page)
  {
    hide ChangesAfter, LatestSeq, ListChangesSince;
    FeedFacts(d);
    PageSplits(d, account, since, limit);
  }

  lemma FeedFacts(d: Data)
    requires Valid(d)
    ensures Ascending(d.changes) && forall c <- d.changes :: c.seqNo < d.nextSeq
  {
  }

  ghost predicate AllKeepHead(rounds: seq<seq<Op>>) {
    forall ops <- rounds :: forall op <- ops :: KeepsHead(op)
  }

  /** Over any number of polls with any writes in between, the pages are exactly the account's
      changes between the first and the last cursor, once each and in order. */
  lemma {:induction false} PollsDeliver(d: Data, account: AccountId, since: int, limit: int, rounds: seq<seq<Op>>)
    requires Valid(d) && AllKeepHead(rounds)
    ensures var (got, cursor, end) := Polls(d, account, since, limit, rounds);
            Valid(end) && Extends(d, end) && Delivered(end, account, since, cursor, got)
    decreases |rounds|
  {
    hide Valid, Extends, ChangesAfter, LatestSeq, ListChangesSince, Run;
    if rounds == [] {
      ExtendsSelf(d, d);
      assert [] + ChangesAfter(d.changes, account, since) == ChangesAfter(d.changes, account, since);
    } else {
      var now := Run(d, rounds[0]);
      assert rounds[0] in rounds && forall ops <- rounds[1..] :: ops in rounds;
      RunKeepsValid(d, rounds[0]);
      RunExtends(d, rounds[0]);
      OnePoll(now, account, since, limit);
      var page := ListChangesSince(now, account, since, limit);
      var next := LatestSeq(page, since);
      PollsDeliver(now, account, next, limit, rounds[1..]);
      var (rest, cursor, end) := Polls(now, account, next, limit, rounds[1..]);
      ExtendsTransitive(d, now, end);
      DeliveredLater(now, end, account, since, next, page);
      DeliveredThen(end, account, since, next, cursor, page, rest);
    }
  }

  lemma DeliveredThen(d: Data, account: AccountId, since: int, next: int, cursor: int,
                      page: seq<Change>, rest: seq<Change>)
    requires Delivered(d, account, since, next, page) && Delivered(d, account, next, cursor, rest)
    ensures Delivered(d, account, since, cursor, page + rest)
  {
    hide ChangesAfter;
    assert page + (rest + ChangesAfter(d.changes, account, cursor)) ==
           page + rest + ChangesAfter(d.changes, account, cursor);
  }

  /** A last page that is not full has caught up: the pages are all later changes of that state. */
  lemma ShortPageCatchesUp(d: Data, account: AccountId, since: int, limit: int, rounds: seq<seq<Op>>, ops: seq<Op>)
    requires Valid(d) && AllKeepHead(rounds) && (forall op <- ops :: KeepsHead(op)) && limit > 0
    ensures var (got, cursor, mid) := Polls(d, account, since, limit, rounds);
            var now := Run(mid, ops);
            var page := ListChangesSince(now, account, cursor, limit);
            |page| < limit ==> got + page == ChangesAfter(now.changes, account, since)
  {
    hide Valid, Extends, ChangesAfter, LatestSeq, Run, Polls;
    PollsDeliver(d, account, since, limit, rounds);
    var (got, cursor, mid) := Polls(d, account, since, limit, rounds);
    var now := Run(mid, ops);
    RunKeepsValid(mid, ops);
    RunExtends(mid, ops);
    DeliveredLater(mid, now, account, since, cursor, got);
    FeedFacts(now);
    PageSplits(now, account, cursor, limit);
    var page := ListChangesSince(now, account, cursor, limit);
    assert |page| < limit ==> page + [] == page;
  }

  // ---- snapshot plus delta ----

  /** What a client sees of a file: its version and whether it is deleted. */
  type View = map<Key, (int, bool)>

  function ViewOf(d: Data, account: AccountId): View {
    map k | k in d.files && k.account == account :: (d.files[k].version, d.files[k].deleted)
  }

  /** Folding changes onto a view: each change sets its file's version and flag. */
  function FoldChanges(view: View, cs: seq<Change>): View {
    if cs == [] then view
    else
      var c := cs[|cs| - 1];
      FoldChanges(view, cs[..|cs| - 1])[c.key := (c.version, c.kind == Delete)]
  }

  datatype Seen = Absent | Present(version: int, deleted: bool)

  function Lookup(view: View, k: Key): Seen {
    if k in view then Present(view[k].0, view[k].1) else Absent
  }

  function LastOf(cs: seq<Change>, k: Key, otherwise: Seen): Seen {
    var mine := FileChanges(cs, k);
    if mine == [] then otherwise
    else var c := mine[|mine| - 1]; Present(c.version, c.kind == Delete)
  }

  lemma {:induction false} FoldLookup(view: View, cs: seq<Change>, k: Key)
    ensures Lookup(FoldChanges(view, cs), k) == LastOf(cs, k, Lookup(view, k))
  {
    if cs != [] {
      FoldLookup(view, cs[..|cs| - 1], k);
    }
  }

  lemma {:induction false} FileChangesMembers(cs: seq<Change>, k: Key)
    ensures forall c :: c in FileChanges(cs, k) <==> c in cs && c.key == k
  {
    if cs != [] {
      FileChangesMembers(cs[..|cs| - 1], k);
      assert cs == cs[..|cs| - 1] + [cs[|cs| - 1]];
    }
  }

  /** The last change of a file survives the cursor filter exactly when it lies after the cursor. */
  lemma {:induction false} LastAfter(cs: seq<Change>, account: AccountId, since: int, k: Key)
    requires Ascending(cs)
    ensures var mine := FileChanges(cs, k);
            var after := FileChanges(ChangesAfter(cs, account, since), k);
            if mine != [] && k.account == account && mine[|mine| - 1].seqNo > since
            then after != [] && after[|after| - 1] == mine[|mine| - 1]
            else after == []
  {
    hide FileChanges;
    if cs == [] {
      assert FileChanges([], k) == [] by { NoChanges(k); }
    } else {
      var n := |cs| - 1;
      var c := cs[n];
      LastAfter(cs[..n], account, since, k);
      assert cs == cs[..n] + [c];
      FileChangesAppend(cs[..n], c, k);
      FileChangesAppend(ChangesAfter(cs[..n], account, since), c, k);
      assert ChangesAfter(cs[..n], account, since) + [] == ChangesAfter(cs[..n], account, since);
      var mine := FileChanges(cs[..n], k);
      if c.key == k && mine != [] {
        FileChangesMembers(cs[..n], k);
        assert mine[|mine| - 1] in cs[..n];
      }
    }
  }

  lemma NoChanges(k: Key)
    ensures FileChanges([], k) == []
  {
  }

  /** The heads of a valid store are what the feed last said about each file. */
  lemma ViewIsLastChange(d: Data, account: AccountId, k: Key)
    requires Valid(d)
    ensures Lookup(ViewOf(d, account), k) ==
            if k.account == account then LastOf(d.changes, k, Absent) else Absent
  {
    hide FileChanges, FeedOrdered, EndsInHead;
    assert FeedMatchesHead(d.changes, d.files, k);
  }

  /** A file whose last change was already in the feed then has not moved since. */
  lemma UnmovedFile(d: Data, d': Data, k: Key)
    requires Valid(d) && Valid(d') && Extends(d, d')
    requires var mine := FileChanges(d'.changes, k);
             mine == [] || mine[|mine| - 1].seqNo < d.nextSeq
    ensures LastOf(d.changes, k, Absent) == LastOf(d'.changes, k, Absent)
  {
    hide FileChanges, EndsInHead;
    assert FeedMatchesHead(d.changes, d.files, k);
    assert FeedMatchesHead(d'.changes, d'.files, k);
    var mine := FileChanges(d'.changes, k);
    FileChangesMembers(d.changes, k);
    FileChangesMembers(d'.changes, k);
    if mine != [] {
      var last := mine[|mine| - 1];
      assert last in mine;
      var i :| 0 <= i < |d'.changes| && d'.changes[i] == last;
      assert i < |d.changes|;
      assert d.changes[i] == last;
      assert last in d.changes;
      var before := FileChanges(d.changes, k);
      assert last in before;
    }
  }

  /** Snapshot plus delta equals current: folding the account's changes after a cursor onto the
      heads of a snapshot gives the current versions and flags, for every cursor that the
      snapshot's own feed covers. */
  lemma SnapshotPlusDelta(d: Data, ops: seq<Op>, account: AccountId, cursor: int)
    requires Valid(d) && (forall op <- ops :: KeepsHead(op)) && cursor < d.nextSeq
    ensures var now := Run(d, ops);
            FoldChanges(ViewOf(d, account), ChangesAfter(now.changes, account, cursor)) == ViewOf(now, account)
  {
    hide Run, Valid, Extends, FileChanges, ChangesAfter, FoldChanges, ViewOf;
    var now := Run(d, ops);
    RunKeepsValid(d, ops);
    RunExtends(d, ops);
    FeedFacts(now);
    var delta := ChangesAfter(now.changes, account, cursor);
    forall k: Key
      ensures Lookup(FoldChanges(ViewOf(d, account), delta), k) == Lookup(ViewOf(now, account), k)
    {
      FoldLookup(ViewOf(d, account), delta, k);
      LastAfter(now.changes, account, cursor, k);
      ViewIsLastChange(d, account, k);
      ViewIsLastChange(now, account, k);
      var mine := FileChanges(now.changes, k);
      if mine == [] || mine[|mine| - 1].seqNo <= cursor {
        UnmovedFile(d, now, k);
      }
    }
    SameLookups(FoldChanges(ViewOf(d, account), delta), ViewOf(now, account));
  }

  lemma SameLookups(a: View, b: View)
    requires forall k :: Lookup(a, k) == Lookup(b, k)
    ensures a == b
  {
    forall k
      ensures k in a <==> k in b
      ensures k in a && k in b ==> a[k] == b[k]
    {
      assert Lookup(a, k) == Lookup(b, k);
    }
  }
}
