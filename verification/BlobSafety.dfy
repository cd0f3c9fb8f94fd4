/** No head and no retained version ever points at a blob that is gone. */
module BlobSafety {
  import opened Basics
  import opened Store
  import opened Handlers
  import Restore

  /** Every retained version that is not a tombstone has its blob. */
  ghost predicate AllStored(w: World) {
    forall k <- w.data.versions :: forall v <- w.data.versions[k] :: !v.deleted ==> v.blobKey in w.blobs
  }

  /** Every stored blob is named by its own hash. */
  ghost predicate ContentAddressed(cfg: Config, blobs: Blobs) {
    forall h <- blobs :: cfg.hash(blobs[h]) == h
  }

  /** `owner` says which file may use a blob key; every retained version keeps to it. */
  ghost predicate Owned(d: Data, owner: string -> Key) {
    forall k <- d.versions :: forall v <- d.versions[k] :: owner(v.blobKey) == k
  }

  ghost predicate Safe(cfg: Config, w: World, owner: string -> Key) {
    Valid(w.data) && AllStored(w) && Owned(w.data, owner) && ContentAddressed(cfg, w.blobs)
  }

  /** The request declares only hashes that belong to its own file. */
  ghost predicate Declares(q: Request, owner: string -> Key) {
    (q.CreateRequest? || q.UpdateRequest?) ==> owner(q.up.contentHash) == q.up.key
  }

  /** A property of every retained version and the file it belongs to. */
  ghost predicate AllVersions(d: Data, p: (Key, VersionRecord) -> bool) {
    forall k <- d.versions :: forall v <- d.versions[k] :: p(k, v)
  }

  /** A commit adds one version to one file. */
  lemma CommitAdds(d: Data, f: FileRecord, p: (Key, VersionRecord) -> bool)
    requires AllVersions(d, p) && p(f.key, VersionOf(f))
    ensures AllVersions(Commit(d, f), p)
  {
    hide VersionOf, ChangeOf;
  }

  /** Retention drops versions of one file and keeps the rest. */
  lemma PruneDrops(d: Data, k: Key, keep: nat, p: (Key, VersionRecord) -> bool)
    requires AllVersions(d, p)
    ensures AllVersions(PruneVersions(d, k, keep).0, p)
  {
    hide Unreferenced, KeptKeys;
  }

  /** What makes a version safe: its file owns its key, and unless deleted its blob is stored. */
  ghost predicate Good(k: Key, v: VersionRecord, blobs: Blobs, owner: string -> Key) {
    owner(v.blobKey) == k && (!v.deleted ==> v.blobKey in blobs)
  }

  lemma SafeMeansGood(d: Data, blobs: Blobs, owner: string -> Key)
    ensures AllVersions(d, (k, v) => Good(k, v, blobs, owner)) <==> AllStored(World(d, blobs)) && Owned(d, owner)
  {
  }

  lemma MoreBlobsStayGood(d: Data, blobs: Blobs, more: Blobs, owner: string -> Key)
    requires AllVersions(d, (k, v) => Good(k, v, blobs, owner)) && blobs.Keys <= more.Keys
    ensures AllVersions(d, (k, v) => Good(k, v, more, owner))
  {
  }

  /** A new head whose blob is there and whose key is the file's own keeps everything safe. */
  lemma CommitKeepsSafe(cfg: Config, w: World, blobs: Blobs, f: FileRecord, owner: string -> Key)
    requires Safe(cfg, w, owner) && ContentAddressed(cfg, blobs) && w.blobs.Keys <= blobs.Keys
    requires f.version == Head(w.data, f.key) + 1 && f.changeSeq == w.data.nextSeq
    requires owner(f.blobKey) == f.key && (!f.deleted ==> f.blobKey in blobs)
    ensures Safe(cfg, World(Commit(w.data, f), blobs), owner)
  {
    hide Valid, Commit, ContentAddressed, AllVersions, AllStored, Owned;
    CommitKeepsValid(w.data, f);
    SafeMeansGood(w.data, w.blobs, owner);
    assert w == World(w.data, w.blobs);
    MoreBlobsStayGood(w.data, w.blobs, blobs, owner);
    CommitAdds(w.data, f, (k, v) => Good(k, v, blobs, owner));
    SafeMeansGood(Commit(w.data, f), blobs, owner);
  }

  lemma {:induction false} UnreferencedMembers(drop: seq<VersionRecord>, keptKeys: set<string>)
    ensures forall h :: h in Unreferenced(drop, keptKeys) <==> h !in keptKeys && exists v <- drop :: v.blobKey == h
  {
    if drop != [] {
      UnreferencedMembers(drop[1..], keptKeys);
      assert drop == [drop[0]] + drop[1..];
    }
  }

  /** Retention frees only keys of that file's dropped versions, and none that it still uses. */
  lemma FreedKeys(d: Data, k: Key, keep: nat)
    ensures var (d', freed) := PruneVersions(d, k, keep);
            forall h <- freed :: (forall v <- History(d', k) :: v.blobKey != h)
                                 && exists v <- History(d, k) :: v.blobKey == h
  {
    hide Unreferenced, KeptKeys;
    var vs := History(d, k);
    if |vs| > keep {
      FreedFrom(d, k, vs, |vs| - keep);
    }
  }

  lemma FreedFrom(d: Data, k: Key, vs: seq<VersionRecord>, cut: nat)
    requires cut <= |vs|
    ensures forall h <- Unreferenced(vs[..cut], KeptKeys(d, k, vs[cut..])) ::
              (forall v <- vs[cut..] :: v.blobKey != h) && exists v <- vs :: v.blobKey == h
  {
    hide Unreferenced;
    UnreferencedMembers(vs[..cut], KeptKeys(d, k, vs[cut..]));
    forall h <- Unreferenced(vs[..cut], KeptKeys(d, k, vs[cut..]))
      ensures exists v <- vs :: v.blobKey == h
    {
      var v :| v in vs[..cut] && v.blobKey == h;
      assert v in vs;
    }
  }

  lemma FreedKeysOwned(d: Data, k: Key, keep: nat, owner: string -> Key)
    requires Owned(d, owner)
    ensures forall h <- PruneVersions(d, k, keep).1 :: owner(h) == k
  {
    FreedKeys(d, k, keep);
    hide PruneVersions;
  }

  /** Deleting blobs whose keys no version of this file uses, and no other file owns, is harmless. */
  lemma DeleteKeepsGood(d: Data, blobs: Blobs, k: Key, freed: seq<string>, owner: string -> Key)
    requires AllVersions(d, (j, v) => Good(j, v, blobs, owner))
    requires forall h <- freed :: owner(h) == k && forall v <- History(d, k) :: v.blobKey != h
    ensures AllVersions(d, (j, v) => Good(j, v, WithoutBlobs(blobs, freed), owner))
  {
    forall j <- d.versions, v <- d.versions[j]
      ensures Good(j, v, WithoutBlobs(blobs, freed), owner)
    {
      assert Good(j, v, blobs, owner);
      if j == k {
        assert v in History(d, k);
      }
    }
  }

  lemma RetainKeepsSafe(cfg: Config, w: World, k: Key, owner: string -> Key)
    requires Safe(cfg, w, owner)
    ensures Safe(cfg, Retain(cfg, w, k), owner)
  {
    hide Valid, PruneVersions, AllVersions, AllStored, Owned, Good, History;
    if cfg.retention > 0 {
      var (d', freed) := PruneVersions(w.data, k, cfg.retention);
      PruneKeepsValid(w.data, k, cfg.retention);
      FreedKeys(w.data, k, cfg.retention);
      FreedKeysOwned(w.data, k, cfg.retention, owner);
      SafeMeansGood(w.data, w.blobs, owner);
      assert w == World(w.data, w.blobs);
      PruneDrops(w.data, k, cfg.retention, (j, v) => Good(j, v, w.blobs, owner));
      DeleteKeepsGood(d', w.blobs, k, freed, owner);
      SafeMeansGood(d', WithoutBlobs(w.blobs, freed), owner);
    }
  }

  lemma SaveKeepsSafe(cfg: Config, w: World, up: Upload, f: FileRecord, owner: string -> Key)
    requires Safe(cfg, w, owner)
    ensures Safe(cfg, w.(data := Save(w.data, up, f)), owner)
  {
    hide ContentAddressed;
    if up.idemKey != "" {
      SaveKeepsValid(w.data, up.key.account, up.idemKey, f);
      hide Valid;
    }
  }

  lemma StoreBlobKeeps(cfg: Config, blobs: Blobs, up: Upload)
    requires Refusal(cfg, up).None? && ContentAddressed(cfg, blobs)
    ensures ContentAddressed(cfg, StoreBlob(cfg, blobs, up)) && blobs.Keys <= StoreBlob(cfg, blobs, up).Keys
    ensures !up.deleted ==> up.contentHash in StoreBlob(cfg, blobs, up)
  {
  }

  lemma MoreBlobsStaySafe(cfg: Config, w: World, blobs: Blobs, owner: string -> Key)
    requires Safe(cfg, w, owner) && ContentAddressed(cfg, blobs) && w.blobs.Keys <= blobs.Keys
    ensures Safe(cfg, w.(blobs := blobs), owner)
  {
    hide Valid, ContentAddressed, Owned;
  }

  lemma CreateKeepsSafe(cfg: Config, w: World, up: Upload, device: DeviceId, now: int, owner: string -> Key)
    requires Safe(cfg, w, owner) && owner(up.contentHash) == up.key
    ensures Safe(cfg, HandleCreate(cfg, w, up, device, now).0, owner)
  {
    hide Safe, Refusal, StoreBlob, Commit;
    if Refusal(cfg, up).None? && Saved(w.data, up).None? {
      assert Valid(w.data) && ContentAddressed(cfg, w.blobs) by { UnpackSafe(cfg, w, owner); }
      hide Valid, ContentAddressed;
      StoreBlobKeeps(cfg, w.blobs, up);
      var blobs := StoreBlob(cfg, w.blobs, up);
      if up.key in w.data.files {
        MoreBlobsStaySafe(cfg, w, blobs, owner);
      } else {
        var f := RecordOf(cfg, up, device, now).(version := 1, changeSeq := w.data.nextSeq);
        CommitKeepsSafe(cfg, w, blobs, f, owner);
        SaveKeepsSafe(cfg, World(Commit(w.data, f), blobs), up, f, owner);
      }
    }
  }

  lemma UnpackSafe(cfg: Config, w: World, owner: string -> Key)
    requires Safe(cfg, w, owner)
    ensures Valid(w.data) && AllStored(w) && Owned(w.data, owner) && ContentAddressed(cfg, w.blobs)
  {
  }

  lemma UpdateKeepsSafe(cfg: Config, w: World, up: Upload, device: DeviceId, now: int, owner: string -> Key)
    requires Safe(cfg, w, owner) && owner(up.contentHash) == up.key
    ensures Safe(cfg, HandleUpdate(cfg, w, up, device, now).0, owner)
  {
    hide Safe, Refusal, StoreBlob, Commit, Retain, Valid, ContentAddressed;
    if Refusal(cfg, up).None? && Saved(w.data, up).None? {
      UnpackSafe(cfg, w, owner);
      StoreBlobKeeps(cfg, w.blobs, up);
      var blobs := StoreBlob(cfg, w.blobs, up);
      if up.key in w.data.files && w.data.files[up.key].version == up.baseVersion {
        var f := RecordOf(cfg, up, device, now).(version := up.baseVersion + 1, changeSeq := w.data.nextSeq);
        CommitKeepsSafe(cfg, w, blobs, f, owner);
        RetainKeepsSafe(cfg, World(Commit(w.data, f), blobs), up.key, owner);
        SaveKeepsSafe(cfg, Retain(cfg, World(Commit(w.data, f), blobs), up.key), up, f, owner);
      } else {
        MoreBlobsStaySafe(cfg, w, blobs, owner);
      }
    }
  }

  /** The head of a file is its newest retained version. */
  lemma HeadIsRetained(d: Data, k: Key)
    requires Valid(d) && k in d.files
    ensures k in d.versions && VersionOf(d.files[k]) in d.versions[k] && d.files[k].key == k
  {
    hide FeedMatchesHead, FeedOrdered;
  }

  lemma DeleteKeepsSafe(cfg: Config, w: World, k: Key, device: DeviceId, now: int, owner: string -> Key)
    requires Safe(cfg, w, owner)
    ensures Safe(cfg, HandleDelete(w, k, device, now).0, owner)
  {
    hide Valid, ContentAddressed, Commit;
    if k in w.data.files {
      HeadIsRetained(w.data, k);
      var f := Restore.Tombstone(w.data.files[k], now, device)
               .(version := w.data.files[k].version + 1, changeSeq := w.data.nextSeq);
      CommitKeepsSafe(cfg, w, w.blobs, f, owner);
    }
  }

  lemma RestoreKeepsSafe(cfg: Config, w: World, k: Key, version: int, device: DeviceId, now: int, owner: string -> Key)
    requires Safe(cfg, w, owner)
    ensures Safe(cfg, HandleRestore(w, k, version, device, now).0, owner)
  {
    hide Valid, ContentAddressed, Commit, FindVersion, Restore.MergeVersionVector;
    Restore.FoundVersion(History(w.data, k), version);
    var v, cur := GetVersion(w.data, k, version), GetFile(w.data, k);
    if v.Ok? && cur.Ok? {
      assert k in w.data.versions && v.value in w.data.versions[k];
      var f := Restore.RestoreRecord(k, cur.value, v.value, now, device)
               .(version := cur.value.version + 1, changeSeq := w.data.nextSeq);
      CommitKeepsSafe(cfg, w, w.blobs, f, owner);
    }
  }

  lemma HandleKeepsSafe(cfg: Config, w: World, q: Request, owner: string -> Key)
    requires Safe(cfg, w, owner) && Declares(q, owner)
    ensures Safe(cfg, Handle(cfg, w, q).0, owner)
  {
    hide Safe, HandleCreate, HandleUpdate, HandleDelete, HandleRestore;
    match q
    case CreateRequest(up, device, now) => CreateKeepsSafe(cfg, w, up, device, now, owner);
    case UpdateRequest(up, device, now) => UpdateKeepsSafe(cfg, w, up, device, now, owner);
    case DeleteRequest(k, device, now) => DeleteKeepsSafe(cfg, w, k, device, now, owner);
    case RestoreRequest(k, version, device, now) => RestoreKeepsSafe(cfg, w, k, version, device, now, owner);
  }

  lemma {:induction false} ServeKeepsSafe(cfg: Config, w: World, qs: seq<Request>, owner: string -> Key)
    requires Safe(cfg, w, owner) && forall q <- qs :: Declares(q, owner)
    ensures Safe(cfg, Serve(cfg, w, qs), owner)
    decreases |qs|
  {
    hide Safe, Handle;
    if qs != [] {
      HandleKeepsSafe(cfg, w, qs[0], owner);
      assert forall q <- qs[1..] :: q in qs;
      ServeKeepsSafe(cfg, Handle(cfg, w, qs[0]).0, qs[1..], owner);
    }
  }

  /** In every sequence of complete requests in which no two files declare one hash, each head and
      each retained version that is not deleted has its blob, and every blob still hashes to its name. */
  lemma BlobsNeverMissing(cfg: Config, qs: seq<Request>, owner: string -> Key)
    requires forall q <- qs :: Declares(q, owner)
    ensures var w := Serve(cfg, World(EMPTY, map[]), qs);
            && (forall k <- w.data.files :: !w.data.files[k].deleted ==> w.data.files[k].blobKey in w.blobs)
            && AllStored(w)
            && ContentAddressed(cfg, w.blobs)
  {
    hide Serve, AllStored, ContentAddressed, Owned;
    var w0 := World(EMPTY, map[]);
    EmptySafe(cfg, owner);
    ServeKeepsSafe(cfg, w0, qs, owner);
    var w := Serve(cfg, w0, qs);
    forall k <- w.data.files | !w.data.files[k].deleted
      ensures w.data.files[k].blobKey in w.blobs
    {
      HeadIsRetained(w.data, k);
      StoredHead(w, k);
    }
  }

  lemma StoredHead(w: World, k: Key)
    requires AllStored(w) && k in w.data.files && k in w.data.versions
    requires VersionOf(w.data.files[k]) in w.data.versions[k]
    ensures !w.data.files[k].deleted ==> w.data.files[k].blobKey in w.blobs
  {
    assert VersionOf(w.data.files[k]).blobKey == w.data.files[k].blobKey;
  }

  lemma EmptySafe(cfg: Config, owner: string -> Key)
    ensures Safe(cfg, World(EMPTY, map[]), owner)
  {
    EmptyValid();
    hide Valid;
  }

  // ---- sharing a hash between files ----

  /** A version of `k` that retention drops is the last of `k` to use this blob key. */
  ghost predicate LosesKey(d: Data, k: Key, keep: nat, h: string) {
    var vs := History(d, k);
    && |vs| > keep && (exists v <- vs[..|vs| - keep] :: v.blobKey == h)
    && (forall v <- vs[|vs| - keep..] :: v.blobKey != h)
    && h != (if k in d.files then d.files[k].blobKey else "")
  }

  lemma FreedMeans(d: Data, k: Key, keep: nat)
    ensures forall h :: h in PruneVersions(d, k, keep).1 <==> LosesKey(d, k, keep, h)
  {
    hide Unreferenced;
    var vs := History(d, k);
    if |vs| > keep {
      UnreferencedMembers(vs[..|vs| - keep], KeptKeys(d, k, vs[|vs| - keep..]));
    }
  }

  /** Retention keeps every needed blob exactly when no other file's live retained version has the key of a
      dropped version that nothing kept of `k` has. */
  lemma RetainKeepsBlobsExactly(cfg: Config, w: World, k: Key)
    requires AllStored(w) && cfg.retention > 0
    ensures AllStored(Retain(cfg, w, k)) <==>
            forall j <- w.data.versions :: j != k ==>
              forall v <- w.data.versions[j] :: !v.deleted ==> !LosesKey(w.data, k, cfg.retention, v.blobKey)
  {
    var (d', freed) := PruneVersions(w.data, k, cfg.retention);
    FreedMeans(w.data, k, cfg.retention);
    FreedKeys(w.data, k, cfg.retention);
    PruneDrops(w.data, k, cfg.retention, (j, v) => j in w.data.versions && v in w.data.versions[j]);
    OthersUntouched(w.data, k, cfg.retention);
    hide PruneVersions, LosesKey;
    var blobs := WithoutBlobs(w.blobs, freed);
    if forall j <- w.data.versions :: j != k ==> forall v <- w.data.versions[j] :: v.deleted || v.blobKey !in freed {
      forall j <- d'.versions, v <- d'.versions[j] | !v.deleted
        ensures v.blobKey in blobs
      {
        assert j in w.data.versions && v in w.data.versions[j];
        if j == k {
          assert v in History(d', k);
        }
      }
    }
  }

  lemma OthersUntouched(d: Data, k: Key, keep: nat)
    ensures var d' := PruneVersions(d, k, keep).0;
            forall j <- d.versions :: j != k ==> j in d'.versions && d'.versions[j] == d.versions[j]
  {
    hide Unreferenced, KeptKeys;
  }

  /** Two files with the same ciphertext hash: retention of the one deletes the other's blob. */
  lemma SharedHashLosesBlob(cfg: Config, a: Upload, b: Upload, c: Upload, device: DeviceId, now: int)
    requires cfg.retention == 1
    requires Refusal(cfg, a).None? && Refusal(cfg, b).None? && Refusal(cfg, c).None?
    requires !a.deleted && !b.deleted && a.contentHash == b.contentHash && c.contentHash != a.contentHash
    requires a.key != b.key && c.key == a.key && c.baseVersion == 1
    requires a.idemKey == b.idemKey == c.idemKey == ""
    ensures var w := Serve(cfg, World(EMPTY, map[]),
                           [CreateRequest(a, device, now), CreateRequest(b, device, now),
                             UpdateRequest(c, device, now)]);
            && b.key in w.data.files && !w.data.files[b.key].deleted
            && w.data.files[b.key].blobKey !in w.blobs
  {
    hide Refusal;
    var qs := [CreateRequest(a, device, now), CreateRequest(b, device, now),
                             UpdateRequest(c, device, now)];
    var w0 := World(EMPTY, map[]);
    var w1 := Handle(cfg, w0, qs[0]).0;
    var w2 := Handle(cfg, w1, qs[1]).0;
    var w3 := Handle(cfg, w2, qs[2]).0;
    assert Serve(cfg, w0, qs) == w3 by {
      assert qs[1..][1..][1..] == [];
      assert qs[1..][0] == qs[1] && qs[1..][1..][0] == qs[2];
      hide Handle;
      assert Serve(cfg, w2, qs[1..][1..]) == Serve(cfg, w3, []);
    }
    SharedAfterCreates(cfg, a, b, device, now);
    var fa := RecordOf(cfg, a, device, now).(version := 1, changeSeq := 1);
    var fc := RecordOf(cfg, c, device, now).(version := 2, changeSeq := 3);
    assert w2 == SharedWorld(cfg, a, b, device, now);
    assert History(w2.data, a.key) + [VersionOf(fc)] == [VersionOf(fa), VersionOf(fc)];
    PruneOne(Commit(w2.data, fc), a.key, VersionOf(fa), VersionOf(fc));
  }

  function Hex(c: char): (s: string)
    ensures |s| == 64 && forall i :: 0 <= i < 64 ==> s[i] == c
  {
    seq(64, _ => c)
  }

  /** A server that keeps one version; its hash tells the one-byte content [1] from everything else. */
  function SmallServer(): Config { Config(1, 100, (content: Bytes) => if content == [1] then Hex('a') else Hex('b')) }

  const ONE_FILE := Key("account", "00000000-0000-0000-0000-000000000001")
  const OTHER_FILE := Key("account", "00000000-0000-0000-0000-000000000002")

  /** An upload of one byte. */
  function ByteUpload(k: Key, b: bv8, base: int): Upload {
    Upload(k, Some([0]), Some([b]), if b == 1 then Hex('a') else Hex('b'), base, map[], false, 1, None, "")
  }

  lemma ByteUploadIsFine(k: Key, b: bv8, base: int)
    requires k == ONE_FILE || k == OTHER_FILE
    ensures Refusal(SmallServer(), ByteUpload(k, b, base)).None?
  {
    assert IsUuid(k.file);
    assert b != 1 ==> [b][0] != [1][0];
  }

  /** Two files with the content [1]; when the one is changed to [2], the other's blob is gone. */
  lemma SharedHashLosesBlobHere()
    ensures var w := Serve(SmallServer(), World(EMPTY, map[]),
                           [CreateRequest(ByteUpload(ONE_FILE, 1, 0), "device", 0),
                            CreateRequest(ByteUpload(OTHER_FILE, 1, 0), "device", 0),
                            UpdateRequest(ByteUpload(ONE_FILE, 2, 1), "device", 0)]);
            && OTHER_FILE in w.data.files && !w.data.files[OTHER_FILE].deleted
            && w.data.files[OTHER_FILE].blobKey !in w.blobs
  {
    hide Refusal, Serve;
    ByteUploadIsFine(ONE_FILE, 1, 0);
    ByteUploadIsFine(OTHER_FILE, 1, 0);
    ByteUploadIsFine(ONE_FILE, 2, 1);
    assert Hex('a')[0] != Hex('b')[0];
    assert ONE_FILE.file[35] != OTHER_FILE.file[35];
    SharedHashLosesBlob(SmallServer(), ByteUpload(ONE_FILE, 1, 0), ByteUpload(OTHER_FILE, 1, 0),
                        ByteUpload(ONE_FILE, 2, 1),
                        "device", 0);
  }

  function SharedWorld(cfg: Config, a: Upload, b: Upload, device: DeviceId, now: int): World
    requires Refusal(cfg, a).None? && Refusal(cfg, b).None? && !a.deleted && !b.deleted
  {
    var fa := RecordOf(cfg, a, device, now).(version := 1, changeSeq := 1);
    var fb := RecordOf(cfg, b, device, now).(version := 1, changeSeq := 2);
    World(Commit(Commit(EMPTY, fa), fb), StoreBlob(cfg, StoreBlob(cfg, map[], a), b))
  }

  lemma SharedAfterCreates(cfg: Config, a: Upload, b: Upload, device: DeviceId, now: int)
    requires Refusal(cfg, a).None? && Refusal(cfg, b).None? && !a.deleted && !b.deleted
    requires a.key != b.key && a.idemKey == b.idemKey == ""
    ensures HandleCreate(cfg, HandleCreate(cfg, World(EMPTY, map[]), a, device, now).0, b, device, now).0
            == SharedWorld(cfg, a, b, device, now)
  {
    hide Refusal;
  }

  lemma PruneOne(d: Data, k: Key, v: VersionRecord, kept: VersionRecord)
    requires History(d, k) == [v, kept] && k in d.files && d.files[k].blobKey == kept.blobKey != v.blobKey
    ensures PruneVersions(d, k, 1).1 == [v.blobKey]
  {
    assert [v, kept][..1] == [v] && [v, kept][1..] == [kept] && [v][1..] == [];
    assert Unreferenced([v], {kept.blobKey}) == [v.blobKey] + Unreferenced([], {kept.blobKey});
    assert KeptKeys(d, k, [kept]) == {kept.blobKey};
  }

  // ---- replays ----

  /** A saved response is never replaced by complete requests. */
  lemma SavedStays(cfg: Config, w: World, q: Request)
    ensures var d' := Handle(cfg, w, q).0.data;
            forall k <- w.data.idempotent :: k in d'.idempotent && d'.idempotent[k] == w.data.idempotent[k]
  {
    hide Refusal, StoreBlob, VersionOf, ChangeOf, Unreferenced, KeptKeys, WithoutBlobs, FindVersion,
         Restore.MergeVersionVector;
  }

  lemma {:induction false} SavedStaysServed(cfg: Config, w: World, qs: seq<Request>, k: (AccountId, string))
    requires k in w.data.idempotent
    ensures var d' := Serve(cfg, w, qs).data;
            k in d'.idempotent && d'.idempotent[k] == w.data.idempotent[k]
    decreases |qs|
  {
    if qs != [] {
      SavedStays(cfg, w, qs[0]);
      hide Handle;
      SavedStaysServed(cfg, Handle(cfg, w, qs[0]).0, qs[1..], k);
    }
  }

  /** An upload, of a new file or a new version, that was answered once under an idempotency key is answered
      from memory ever after: whatever happens in between, sending it again, either way, changes nothing and
      returns the same record. */
  lemma ReplayChangesNothing(cfg: Config, w: World, first: Request, qs: seq<Request>,
                             later: Upload, device: DeviceId, now: int)
    requires (first.CreateRequest? || first.UpdateRequest?) && first.up.idemKey != ""
    requires Handle(cfg, w, first).1.Done?
    requires later.idemKey == first.up.idemKey && later.key.account == first.up.key.account && Refusal(cfg, later).None?
    ensures var (w1, r) := Handle(cfg, w, first);
            var w2 := Serve(cfg, w1, qs);
            HandleUpdate(cfg, w2, later, device, now) == (w2, Replayed(r.record)) &&
            HandleCreate(cfg, w2, later, device, now) == (w2, Replayed(r.record))
  {
    hide Refusal, Serve, StoreBlob, Retain;
    var (w1, r) := Handle(cfg, w, first);
    var k := (first.up.key.account, first.up.idemKey);
    assert k in w1.data.idempotent && w1.data.idempotent[k] == r.record;
    SavedStaysServed(cfg, w1, qs, k);
  }
}
