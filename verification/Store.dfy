/** The server's in-memory store as a value: records, retained history, change feed, saved responses. */
module Store {
  import V = VersionVectors

  type AccountId = string
  type FileId = string
  type DeviceId = string
  type Bytes = seq<bv8>

  datatype Key = Key(account: AccountId, file: FileId)

  /** The current head of one synchronized file. */
  datatype FileRecord = FileRecord(
    key: Key, metadata: Bytes, contentHash: string, version: int, vector: V.Vector, deleted: bool,
    size: int, blobKey: string, modifiedAt: int, origin: DeviceId, changeSeq: int)

  /** One immutable historical version. */
  datatype VersionRecord = VersionRecord(
    key: Key, version: int, metadata: Bytes, contentHash: string, vector: V.Vector, deleted: bool,
    size: int, blobKey: string, modifiedAt: int, origin: DeviceId)

  datatype Kind = Upsert | Delete

  datatype Change = Change(seqNo: int, key: Key, version: int, kind: Kind, origin: DeviceId)

  datatype Error = NotFound | Conflict | Duplicate

  datatype Result<+T> = Ok(value: T) | Err(error: Error)

  datatype Data = Data(
    files: map<Key, FileRecord>, versions: map<Key, seq<VersionRecord>>, changes: seq<Change>, nextSeq: int,
    idempotent: map<(AccountId, string), FileRecord>)

  const EMPTY := Data(map[], map[], [], 1, map[])

  function VersionOf(f: FileRecord): VersionRecord {
    VersionRecord(f.key, f.version, f.metadata, f.contentHash, f.vector, f.deleted,
                  f.size, f.blobKey, f.modifiedAt, f.origin)
  }

  function KindOf(deleted: bool): Kind { if deleted then Delete else Upsert }

  function ChangeOf(f: FileRecord): Change {
    Change(f.changeSeq, f.key, f.version, KindOf(f.deleted), f.origin)
  }

  /** The retained history of a file, oldest first. */
  function History(d: Data, k: Key): seq<VersionRecord> {
    if k in d.versions then d.versions[k] else []
  }

  /** The version number of a file's head; 0 while there is none. */
  function Head(d: Data, k: Key): int {
    if k in d.files then d.files[k].version else 0
  }

  /** The text under which the store files a record; the same form keys the saved responses. */
  function FileKey(k: Key): string { k.account + "/" + k.file }

  lemma SlashComesAfter(account: string, file: string, s: string)
    requires '/' !in account && s == account + "/" + file
    ensures s[..|account|] == account && s[|account| + 1..] == file && s[|account|] == '/'
    ensures forall i :: 0 <= i < |account| ==> s[i] != '/'
  {
    assert s[..|account|] == account;
    assert forall i :: 0 <= i < |account| ==> account[i] in account && s[i] == account[i];
  }

  /** Account ids have no slash, so the text stands for the pair. */
  lemma FileKeyInjective(k: Key, j: Key)
    requires '/' !in k.account && '/' !in j.account && FileKey(k) == FileKey(j)
    ensures k == j
  {
    SlashComesAfter(k.account, k.file, FileKey(k));
    SlashComesAfter(j.account, j.file, FileKey(j));
  }

  // ---- the operations ----

  function Commit(d: Data, f: FileRecord): Data {
    d.(files := d.files[f.key := f],
       versions := d.versions[f.key := History(d, f.key) + [VersionOf(f)]],
       changes := d.changes + [ChangeOf(f)],
       nextSeq := d.nextSeq + 1)
  }

  function CreateFile(d: Data, rec: FileRecord): (Data, Result<FileRecord>) {
    if rec.key in d.files then (d, Err(Duplicate))
    else
      var f := rec.(version := 1, changeSeq := d.nextSeq);
      (Commit(d, f), Ok(f))
  }

  function UpdateFile(d: Data, rec: FileRecord, baseVersion: int): (Data, Result<FileRecord>) {
    if rec.key !in d.files then (d, Err(NotFound))
    else if d.files[rec.key].version != baseVersion then (d, Err(Conflict))
    else
      var f := rec.(version := d.files[rec.key].version + 1, changeSeq := d.nextSeq);
      (Commit(d, f), Ok(f))
  }

  function GetFile(d: Data, k: Key): Result<FileRecord> {
    if k in d.files then Ok(d.files[k]) else Err(NotFound)
  }

  function FindVersion(vs: seq<VersionRecord>, version: int): Result<VersionRecord> {
    if vs == [] then Err(NotFound)
    else if vs[0].version == version then Ok(vs[0])
    else FindVersion(vs[1..], version)
  }

  function GetVersion(d: Data, k: Key, version: int): Result<VersionRecord> {
    FindVersion(History(d, k), version)
  }

  /** Blob keys of the dropped versions that neither a kept version nor the head uses. */
  function Unreferenced(drop: seq<VersionRecord>, keptKeys: set<string>): seq<string> {
    if drop == [] then []
    else (if drop[0].blobKey in keptKeys then [] else [drop[0].blobKey]) + Unreferenced(drop[1..], keptKeys)
  }

  function KeptKeys(d: Data, k: Key, kept: seq<VersionRecord>): set<string> {
    {if k in d.files then d.files[k].blobKey else ""} + set v <- kept :: v.blobKey
  }

  function PruneVersions(d: Data, k: Key, keep: nat): (Data, seq<string>) {
    var vs := History(d, k);
    if |vs| <= keep then (d, [])
    else
      var cut := |vs| - keep;
      (d.(versions := d.versions[k := vs[cut..]]),
       Unreferenced(vs[..cut], KeptKeys(d, k, vs[cut..])))
  }

  /** The account's changes after `since`, in feed order. */
  function ChangesAfter(changes: seq<Change>, account: AccountId, since: int): seq<Change> {
    if changes == [] then []
    else
      var c := changes[|changes| - 1];
      ChangesAfter(changes[..|changes| - 1], account, since)
      + (if c.key.account == account && c.seqNo > since then [c] else [])
  }

  /** One page of the feed; a limit that is not positive means no limit. */
  function ListChangesSince(d: Data, account: AccountId, since: int, limit: int): seq<Change> {
    var all := ChangesAfter(d.changes, account, since);
    if 0 < limit < |all| then all[..limit] else all
  }

  function SaveResponse(d: Data, account: AccountId, key: string, response: FileRecord): Data {
    d.(idempotent := d.idempotent[(account, key) := response])
  }

  // ---- runs ----

  /** A mutating store operation; each holds the store's lock and so is one step. */
  datatype Op =
    | Create(rec: FileRecord)
    | Update(rec: FileRecord, baseVersion: int)
    | Prune(key: Key, keep: nat)
    | SaveIdempotent(account: AccountId, idemKey: string, response: FileRecord)

  function Apply(d: Data, op: Op): Data {
    match op
    case Create(rec) => CreateFile(d, rec).0
    case Update(rec, baseVersion) => UpdateFile(d, rec, baseVersion).0
    case Prune(k, keep) => PruneVersions(d, k, keep).0
    case SaveIdempotent(account, key, response) => SaveResponse(d, account, key, response)
  }

  function Run(d: Data, ops: seq<Op>): Data
    decreases |ops|
  {
    if ops == [] then d else Run(Apply(d, ops[0]), ops[1..])
  }

  lemma {:induction false} RunAppend(d: Data, a: seq<Op>, b: seq<Op>)
    ensures Run(d, a + b) == Run(Run(d, a), b)
    decreases |a|
  {
    if a == [] {
      assert a + b == b;
    } else {
      assert (a + b)[1..] == a[1..] + b;
      RunAppend(Apply(d, a[0]), a[1..], b);
    }
  }

  /** Retention keeps at least one version: the server prunes only with a positive retention. */
  ghost predicate KeepsHead(op: Op) { op.Prune? ==> op.keep > 0 }

  // ---- what every operation keeps ----

  /** The file's changes, in feed order. */
  function FileChanges(changes: seq<Change>, k: Key): seq<Change> {
    if changes == [] then []
    else
      var c := changes[|changes| - 1];
      FileChanges(changes[..|changes| - 1], k) + (if c.key == k then [c] else [])
  }

  /** `vs` is a run of consecutive versions that ends in the head record `f`. */
  ghost predicate EndsInHead(vs: seq<VersionRecord>, f: FileRecord) {
    && 1 <= |vs| <= f.version
    && vs[|vs| - 1] == VersionOf(f)
    && forall i :: 0 <= i < |vs| ==> vs[i].version == f.version - |vs| + 1 + i
  }

  /** `cs` are the versions 1 to `head`, in order. */
  ghost predicate CountsUp(cs: seq<Change>, head: int) {
    && |cs| == head
    && forall i :: 0 <= i < |cs| ==> cs[i].version == i + 1
  }

  /** A file's changes are its versions 1 to head; the last one describes the head. */
  ghost predicate FeedMatchesHead(changes: seq<Change>, files: map<Key, FileRecord>, k: Key) {
    var cs := FileChanges(changes, k);
    if k in files then CountsUp(cs, files[k].version) && cs != [] && cs[|cs| - 1] == ChangeOf(files[k])
    else cs == []
  }

  /** Change numbers strictly increase and stay below the next number to give out. */
  ghost predicate FeedOrdered(changes: seq<Change>, nextSeq: int) {
    && nextSeq >= 1
    && (forall i :: 0 <= i < |changes| ==> 1 <= changes[i].seqNo < nextSeq)
    && (forall i, j :: 0 <= i < j < |changes| ==> changes[i].seqNo < changes[j].seqNo)
  }

  ghost predicate Valid(d: Data) {
    && FeedOrdered(d.changes, d.nextSeq)
    && d.versions.Keys == d.files.Keys
    && (forall k <- d.files :: d.files[k].key == k && EndsInHead(d.versions[k], d.files[k]))
    && (forall k: Key :: FeedMatchesHead(d.changes, d.files, k))
  }

  lemma FileChangesAppend(changes: seq<Change>, c: Change, k: Key)
    ensures FileChanges(changes + [c], k) == FileChanges(changes, k) + (if c.key == k then [c] else [])
  {
    assert (changes + [c])[..|changes|] == changes;
  }

  lemma FeedCommit(changes: seq<Change>, files: map<Key, FileRecord>, f: FileRecord, k: Key)
    requires FeedMatchesHead(changes, files, k)
    requires f.version == (if f.key in files then files[f.key].version else 0) + 1
    ensures FeedMatchesHead(changes + [ChangeOf(f)], files[f.key := f], k)
  {
    hide FileChanges;
    FileChangesAppend(changes, ChangeOf(f), k);
  }

  lemma HistoryCommit(vs: seq<VersionRecord>, f: FileRecord)
    requires vs == [] ==> f.version >= 1
    requires vs != [] ==> 1 <= |vs| < f.version
    requires forall i :: 0 <= i < |vs| ==> vs[i].version == f.version - |vs| + i
    ensures EndsInHead(vs + [VersionOf(f)], f)
  {
  }

  /** Committing the next version of a file keeps the store valid. */
  lemma CommitKeepsValid(d: Data, f: FileRecord)
    requires Valid(d) && f.version == Head(d, f.key) + 1 && f.changeSeq == d.nextSeq
    ensures Valid(Commit(d, f))
  {
    var d' := Commit(d, f);
    CommitFeed(d, f);
    CommitHistory(d, f);
    hide EndsInHead, FeedMatchesHead, VersionOf, ChangeOf;
    assert d'.versions.Keys == d'.files.Keys;
  }

  lemma CommitFeed(d: Data, f: FileRecord)
    requires Valid(d) && f.version == Head(d, f.key) + 1 && f.changeSeq == d.nextSeq
    ensures FeedOrdered(Commit(d, f).changes, Commit(d, f).nextSeq)
    ensures forall k: Key :: FeedMatchesHead(Commit(d, f).changes, Commit(d, f).files, k)
  {
    hide EndsInHead, FeedMatchesHead;
    forall k: Key
      ensures FeedMatchesHead(Commit(d, f).changes, Commit(d, f).files, k)
    {
      FeedCommit(d.changes, d.files, f, k);
    }
  }

  lemma CommitHistory(d: Data, f: FileRecord)
    requires Valid(d) && f.version == Head(d, f.key) + 1
    ensures EndsInHead(History(d, f.key) + [VersionOf(f)], f)
  {
    hide FeedMatchesHead, FeedOrdered, VersionOf;
    HistoryCommit(History(d, f.key), f);
  }

  lemma PruneKeepsValid(d: Data, k: Key, keep: nat)
    requires Valid(d) && keep > 0
    ensures Valid(PruneVersions(d, k, keep).0)
  {
    hide FeedMatchesHead, FeedOrdered, Unreferenced, KeptKeys, VersionOf, EndsInHead;
    var vs := History(d, k);
    if |vs| > keep {
      SuffixEndsInHead(vs, d.files[k], |vs| - keep);
      var d' := PruneVersions(d, k, keep).0;
      assert d'.versions == d.versions[k := vs[|vs| - keep..]] && d'.files == d.files;
      assert d'.versions.Keys == d'.files.Keys;
    }
  }

  lemma SuffixEndsInHead(vs: seq<VersionRecord>, f: FileRecord, cut: nat)
    requires EndsInHead(vs, f) && cut < |vs|
    ensures EndsInHead(vs[cut..], f)
  {
  }

  lemma ApplyKeepsValid(d: Data, op: Op)
    requires Valid(d) && KeepsHead(op)
    ensures Valid(Apply(d, op))
  {
    hide Valid, Commit;
    match op
    case Create(rec) =>
      if rec.key !in d.files {
        CommitKeepsValid(d, rec.(version := 1, changeSeq := d.nextSeq));
      }
    case Update(rec, baseVersion) =>
      if rec.key in d.files && d.files[rec.key].version == baseVersion {
        CommitKeepsValid(d, rec.(version := d.files[rec.key].version + 1, changeSeq := d.nextSeq));
      }
    case Prune(k, keep) => PruneKeepsValid(d, k, keep);
    case SaveIdempotent(account, key, response) => SaveKeepsValid(d, account, key, response);
  }

  lemma SaveKeepsValid(d: Data, account: AccountId, key: string, response: FileRecord)
    requires Valid(d)
    ensures Valid(SaveResponse(d, account, key, response))
  {
  }

  lemma EmptyValid()
    ensures Valid(EMPTY)
  {
  }

  /** Over every run the store stays valid. */
  lemma {:induction false} RunKeepsValid(d: Data, ops: seq<Op>)
    requires Valid(d) && forall op <- ops :: KeepsHead(op)
    ensures Valid(Run(d, ops))
    decreases |ops|
  {
    hide Valid, Apply;
    if ops != [] {
      ApplyKeepsValid(d, ops[0]);
      assert forall op <- ops[1..] :: op in ops;
      RunKeepsValid(Apply(d, ops[0]), ops[1..]);
    }
  }

  // ---- versions determine records; one accepted write per base ----

  /** `d'` is a later state: heads only move up, a version number keeps its record,
      and older history is dropped but never rewritten. */
  ghost predicate Extends(d: Data, d': Data) {
    && (forall k <- d.files ::
          && k in d'.files && d.files[k].version <= d'.files[k].version
          && (d.files[k].version == d'.files[k].version ==> d.files[k] == d'.files[k])
          && (forall v <- History(d', k) :: v.version <= d.files[k].version ==> v in History(d, k)))
    && d.nextSeq <= d'.nextSeq
    && d.changes <= d'.changes
    && (forall i :: |d.changes| <= i < |d'.changes| ==> d'.changes[i].seqNo >= d.nextSeq)
  }

  lemma CommitExtends(d: Data, f: FileRecord)
    requires f.version == Head(d, f.key) + 1 && f.changeSeq == d.nextSeq
    ensures Extends(d, Commit(d, f))
  {
    hide VersionOf;
    assert VersionOf(f).version == f.version by { VersionNumber(f); }
  }

  lemma VersionNumber(f: FileRecord)
    ensures VersionOf(f).version == f.version && VersionOf(f).key == f.key
  {
  }

  lemma ApplyExtends(d: Data, op: Op)
    ensures Extends(d, Apply(d, op))
  {
    hide Commit, Unreferenced, KeptKeys, Extends;
    match op
    case Create(rec) =>
      if rec.key !in d.files {
        CommitExtends(d, rec.(version := 1, changeSeq := d.nextSeq));
      } else {
        ExtendsSelf(d, d);
      }
    case Update(rec, baseVersion) =>
      if rec.key in d.files && d.files[rec.key].version == baseVersion {
        CommitExtends(d, rec.(version := d.files[rec.key].version + 1, changeSeq := d.nextSeq));
      } else {
        ExtendsSelf(d, d);
      }
    case Prune(k, keep) => ExtendsSelf(d, Apply(d, op));
    case SaveIdempotent(account, key, response) => ExtendsSelf(d, Apply(d, op));
  }

  lemma ExtendsSelf(d: Data, d': Data)
    requires d'.files == d.files && d'.changes == d.changes && d'.nextSeq == d.nextSeq
    requires forall k :: (forall v <- History(d', k) :: v in History(d, k))
    ensures Extends(d, d')
  {
  }

  lemma ExtendsTransitive(a: Data, b: Data, c: Data)
    requires Extends(a, b) && Extends(b, c)
    ensures Extends(a, c)
  {
    forall k <- a.files
      ensures && k in c.files && a.files[k].version <= c.files[k].version
              && (a.files[k].version == c.files[k].version ==> a.files[k] == c.files[k])
              && (forall v <- History(c, k) :: v.version <= a.files[k].version ==> v in History(a, k))
    {
      hide History;
    }
    assert forall i :: 0 <= i < |b.changes| ==> c.changes[i] == b.changes[i];
  }

  lemma {:induction false} RunExtends(d: Data, ops: seq<Op>)
    ensures Extends(d, Run(d, ops))
    decreases |ops|
  {
    hide Extends, Apply;
    if ops == [] {
      ExtendsSelf(d, d);
    } else {
      ApplyExtends(d, ops[0]);
      RunExtends(Apply(d, ops[0]), ops[1..]);
      ExtendsTransitive(d, Apply(d, ops[0]), Run(d, ops));
    }
  }

  /** Whether the step commits a write of `k` over base version `b`; creating is a write over 0. */
  predicate Accepts(d: Data, op: Op, k: Key, b: int) {
    match op
    case Create(rec) => rec.key == k && b == 0 && CreateFile(d, rec).1.Ok?
    case Update(rec, baseVersion) => rec.key == k && b == baseVersion && UpdateFile(d, rec, baseVersion).1.Ok?
    case Prune(_, _) => false
    case SaveIdempotent(_, _, _) => false
  }

  /** How many writes of `k` over base `b` a run accepts. */
  function Accepted(d: Data, ops: seq<Op>, k: Key, b: int): nat
    decreases |ops|
  {
    if ops == [] then 0
    else (if Accepts(d, ops[0], k, b) then 1 else 0) + Accepted(Apply(d, ops[0]), ops[1..], k, b)
  }

  lemma AcceptMovesHead(d: Data, op: Op, k: Key, b: int)
    requires forall j <- d.files :: d.files[j].version >= 1
    ensures Head(d, k) <= Head(Apply(d, op), k) <= Head(d, k) + 1
    ensures Accepts(d, op, k, b) <==> Head(d, k) == b && Head(Apply(d, op), k) == b + 1
    ensures forall j <- Apply(d, op).files :: Apply(d, op).files[j].version >= 1
  {
    hide VersionOf, ChangeOf, Unreferenced, KeptKeys, History;
  }

  /** Every base version that a run moves a file over is written exactly once, and no other is:
      a request resent any number of times commits at most once. */
  lemma {:induction false} OneWritePerBase(d: Data, ops: seq<Op>, k: Key, b: int)
    requires forall j <- d.files :: d.files[j].version >= 1
    ensures Accepted(d, ops, k, b) == if Head(d, k) <= b < Head(Run(d, ops), k) then 1 else 0
    decreases |ops|
  {
    hide Accepts, Apply;
    if ops != [] {
      AcceptMovesHead(d, ops[0], k, b);
      OneWritePerBase(Apply(d, ops[0]), ops[1..], k, b);
      RunExtends(Apply(d, ops[0]), ops[1..]);
    }
  }

  /** A file's version number determines its record, however far apart the two states are. */
  lemma VersionDeterminesRecord(d: Data, ops: seq<Op>, k: Key)
    requires k in d.files && k in Run(d, ops).files && Run(d, ops).files[k].version == d.files[k].version
    ensures Run(d, ops).files[k] == d.files[k]
  {
    RunExtends(d, ops);
  }

  /** After the first `i` operations `v` is the version at the head of `k`. */
  ghost predicate HeadAfter(ops: seq<Op>, k: Key, v: VersionRecord, i: nat) {
    && i <= |ops| && k in Run(EMPTY, ops[..i]).files
    && v == VersionOf(Run(EMPTY, ops[..i]).files[k])
  }

  /** One operation adds no version to the history but the new head. */
  lemma HistoryComesFromHeads(d: Data, op: Op, k: Key, v: VersionRecord)
    requires v in History(Apply(d, op), k)
    ensures v in History(d, k) || (k in Apply(d, op).files && v == VersionOf(Apply(d, op).files[k]))
  {
    hide VersionOf, ChangeOf, Unreferenced, KeptKeys;
  }

  lemma RunLast(ops: seq<Op>, op: Op)
    ensures Run(EMPTY, ops + [op]) == Apply(Run(EMPTY, ops), op)
  {
    hide Apply;
    RunAppend(EMPTY, ops, [op]);
    assert [op][1..] == [];
  }

  /** Over every run, a retained version was the head at some time. */
  lemma {:induction false} RetainedVersionWasOnceHead(ops: seq<Op>, k: Key, v: VersionRecord)
    requires v in History(Run(EMPTY, ops), k)
    ensures exists i: nat :: HeadAfter(ops, k, v, i)
    decreases |ops|
  {
    hide Apply, VersionOf;
    if ops != [] {
      var front, last := ops[..|ops| - 1], ops[|ops| - 1];
      assert ops == front + [last] && ops[..|ops|] == ops;
      RunLast(front, last);
      HistoryComesFromHeads(Run(EMPTY, front), last, k, v);
      if v in History(Run(EMPTY, front), k) {
        RetainedVersionWasOnceHead(front, k, v);
        var i: nat :| HeadAfter(front, k, v, i);
        assert front[..i] == ops[..i];
        assert HeadAfter(ops, k, v, i);
      } else {
        assert HeadAfter(ops, k, v, |ops|);
      }
    }
  }

  /** Two times of a run at which a file's head has one version number have one head record. */
  lemma SameNumberSameHead(ops: seq<Op>, k: Key, i: nat, j: nat)
    requires i <= j <= |ops| && k in Run(EMPTY, ops[..i]).files && k in Run(EMPTY, ops[..j]).files
    requires Run(EMPTY, ops[..i]).files[k].version == Run(EMPTY, ops[..j]).files[k].version
    ensures Run(EMPTY, ops[..i]).files[k] == Run(EMPTY, ops[..j]).files[k]
  {
    assert ops[..j] == ops[..i] + ops[i..j];
    RunAppend(EMPTY, ops[..i], ops[i..j]);
    VersionDeterminesRecord(Run(EMPTY, ops[..i]), ops[i..j], k);
  }

  /** Over every run, a retained version is what the head was: it was the head at some time, and whenever
      the head had its number. */
  lemma RetainedVersionWasHead(ops: seq<Op>, k: Key, v: VersionRecord)
    requires v in History(Run(EMPTY, ops), k)
    ensures exists i: nat :: HeadAfter(ops, k, v, i)
    ensures forall j :: 0 <= j <= |ops| && k in Run(EMPTY, ops[..j]).files ==>
              Run(EMPTY, ops[..j]).files[k].version == v.version ==> HeadAfter(ops, k, v, j)
  {
    hide Run;
    RetainedVersionWasOnceHead(ops, k, v);
    var i: nat :| HeadAfter(ops, k, v, i);
    forall j | 0 <= j <= |ops| && k in Run(EMPTY, ops[..j]).files && Run(EMPTY, ops[..j]).files[k].version == v.version
      ensures HeadAfter(ops, k, v, j)
    {
      SameNumberSameHead(ops, k, if i <= j then i else j, if i <= j then j else i);
    }
  }
}
