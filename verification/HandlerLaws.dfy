/** What the sync handlers answer, and what an accepted request leaves behind. */
module HandlerLaws {
  import opened Basics
  import opened Store
  import opened Handlers
  import opened StoreLaws
  import BlobSafety
  import Restore
  import V = VersionVectors

  // ---- uploads ----

  /** The shape every upload needs, tombstones included. */
  predicate WellShaped(up: Upload) {
    && IsUuid(up.key.file) && IsHex64(up.contentHash)
    && up.metadata.Some? && 1 <= |up.metadata.value| <= 65536
  }

  /** What a live upload needs besides: content that is what the upload declares. */
  predicate Declared(cfg: Config, up: Upload) {
    && up.content.Some? && up.content.value != []
    && cfg.hash(up.content.value) == up.contentHash && up.size == |up.content.value|
  }

  predicate Oversized(cfg: Config, up: Upload) {
    up.content.Some? && up.content.value != [] && |up.content.value| > cfg.maxFileBytes
  }

  /** An upload is taken exactly when it is well shaped and, unless it is a tombstone, its content is within the
      limit and as declared; content over the limit is told apart from every other fault. */
  lemma RefusalMeans(cfg: Config, up: Upload)
    ensures Refusal(cfg, up).None?
            <==> WellShaped(up) && (up.deleted || (Declared(cfg, up) && !Oversized(cfg, up)))
    ensures Refusal(cfg, up) == Some(TooLarge) <==> WellShaped(up) && !up.deleted && Oversized(cfg, up)
    ensures Refusal(cfg, up).Some? && Refusal(cfg, up) != Some(TooLarge) ==> Refusal(cfg, up) == Some(BadRequest)
  {
  }

  /** The record is what the upload says, by this device, and now unless it names a time. */
  predicate Uploaded(f: FileRecord, up: Upload, device: DeviceId, now: int) {
    && f.key == up.key && up.metadata == Some(f.metadata) && f.contentHash == up.contentHash
    && f.vector == up.vector && f.deleted == up.deleted && f.size == up.size && f.blobKey == up.contentHash
    && f.modifiedAt == (match up.modifiedAt case Some(at) => at case None => now)
    && f.origin == device
  }

  /** The upload passes the checks and its retry key has not been answered yet. */
  predicate Fresh(cfg: Config, w: World, up: Upload) {
    && Refusal(cfg, up).None?
    && (up.idemKey == "" || (up.key.account, up.idemKey) !in w.data.idempotent)
  }

  /** The accepted record is remembered under the retry key, if there is one. */
  predicate Remembered(d: Data, d': Data, up: Upload, f: FileRecord) {
    d'.idempotent == if up.idemKey == "" then d.idempotent
                     else d.idempotent[(up.key.account, up.idemKey) := f]
  }

  /** Creating succeeds exactly for a fresh upload of a file that is not there, and then writes it as version 1 and
      stores its content. A refused or repeated upload changes nothing; a duplicate leaves its content only. */
  lemma CreateOutcome(cfg: Config, w: World, up: Upload, device: DeviceId, now: int)
    ensures var (w', r) := Handle(cfg, w, CreateRequest(up, device, now));
            && (r.Done? <==> Fresh(cfg, w, up) && up.key !in w.data.files)
            && (r.Done? ==>
                  && Uploaded(r.record, up, device, now) && r.record.version == 1
                  && Written(w.data, w'.data.(idempotent := w.data.idempotent), r.record)
                  && Remembered(w.data, w'.data, up, r.record))
            && (!r.Done? ==> w'.data == w.data)
            && (Fresh(cfg, w, up) ==>
                  && w'.blobs == (if up.deleted then w.blobs else w.blobs[up.contentHash := up.content.value])
                  && (up.key in w.data.files ==> r == Failed(Duplicate)))
            && (!Fresh(cfg, w, up) ==>
                  && w' == w
                  && r == (if Refusal(cfg, up).Some? then Refusal(cfg, up).value
                           else Replayed(w.data.idempotent[(up.key.account, up.idemKey)])))
  {
    hide Refusal, Written, SamePayload, Store.CreateFile;
    if Refusal(cfg, up).None? {
      var rec := RecordOf(cfg, up, device, now);
      CreateMeans(w.data, rec);
      var r := Store.CreateFile(w.data, rec).1;
      if r.Ok? {
        PayloadIsUploaded(cfg, up, device, now, r.value);
      }
    }
  }

  lemma PayloadIsUploaded(cfg: Config, up: Upload, device: DeviceId, now: int, f: FileRecord)
    requires Refusal(cfg, up).None? && SamePayload(f, RecordOf(cfg, up, device, now))
    ensures Uploaded(f, up, device, now)
  {
    hide Refusal;
    RefusalMeans(cfg, up);
  }

  /** Updating succeeds exactly for a fresh upload whose base is the head's version. A stale base is answered with
      the head, a file that is not there as not found; then, and for a refused or repeated upload, the store
      does not change. What an accepted live upload carries is stored, whatever retention then frees. */
  lemma UpdateOutcome(cfg: Config, w: World, up: Upload, device: DeviceId, now: int)
    requires Valid(w.data)
    ensures var (w', r) := Handle(cfg, w, UpdateRequest(up, device, now));
            && (r.Done? <==> Fresh(cfg, w, up) && up.key in w.data.files && Head(w.data, up.key) == up.baseVersion)
            && (r.Done? ==>
                  && Uploaded(r.record, up, device, now) && r.record.version == up.baseVersion + 1
                  && w'.data.files == w.data.files[up.key := r.record]
                  && |w'.data.changes| == |w.data.changes| + 1 && ToldAs(w'.data.changes[|w.data.changes|], r.record)
                  && w'.data.changes[..|w.data.changes|] == w.data.changes && w'.data.nextSeq == w.data.nextSeq + 1
                  && Remembered(w.data, w'.data, up, r.record)
                  && (!up.deleted ==>
                        up.contentHash in w'.blobs && w'.blobs[up.contentHash] == up.content.value))
            && (!r.Done? ==> w'.data == w.data)
            && (Fresh(cfg, w, up) ==>
                  && (up.key !in w.data.files ==> r == Failed(NotFound))
                  && (up.key in w.data.files && Head(w.data, up.key) != up.baseVersion ==>
                        r == Stale(w.data.files[up.key])))
            && (!Fresh(cfg, w, up) ==>
                  && w' == w
                  && r == (if Refusal(cfg, up).Some? then Refusal(cfg, up).value
                           else Replayed(w.data.idempotent[(up.key.account, up.idemKey)])))
  {
    hide Refusal, SamePayload, Store.UpdateFile, PruneVersions, Valid, History, RetainedAs, ToldAs;
    if Refusal(cfg, up).None? {
      var rec := RecordOf(cfg, up, device, now);
      UpdateMeans(w.data, rec, up.baseVersion);
      var (d, u) := UpdateFile(w.data, rec, up.baseVersion);
      if u.Ok? {
        PayloadIsUploaded(cfg, up, device, now, u.value);
        assert d.files[up.key].blobKey == up.contentHash;
      }
      RetainMeans(cfg, World(d, StoreBlob(cfg, w.blobs, up)), up.key);
    }
  }

  /** Retention touches nothing but one file's history, and the blobs that lose their last version in it. */
  lemma RetainMeans(cfg: Config, w: World, k: Key)
    ensures var blobs := Retain(cfg, w, k).blobs;
            forall h: string ::
              && (h in blobs <==> h in w.blobs
                                  && !(cfg.retention > 0 && BlobSafety.LosesKey(w.data, k, cfg.retention, h)))
              && (h in blobs ==> blobs[h] == w.blobs[h])
    ensures var d := Retain(cfg, w, k).data;
            && d.files == w.data.files && d.changes == w.data.changes && d.nextSeq == w.data.nextSeq
            && d.idempotent == w.data.idempotent
            && d == if cfg.retention > 0 then PruneVersions(w.data, k, cfg.retention).0 else w.data
  {
    hide PruneVersions, BlobSafety.LosesKey;
    if cfg.retention > 0 {
      PruneMeans(w.data, k, cfg.retention);
      BlobSafety.FreedMeans(w.data, k, cfg.retention);
    }
  }

  /** After an accepted update exactly the newest `retention` versions of the file can be read, all that were retained
      if that is not positive: the new one as written, the earlier ones as they were. Other files' versions stay. */
  lemma UpdateKeepsVersions(cfg: Config, w: World, up: Upload, device: DeviceId, now: int, k: Key, n: int)
    requires Valid(w.data) && Handle(cfg, w, UpdateRequest(up, device, now)).1.Done?
    ensures var (w', r) := Handle(cfg, w, UpdateRequest(up, device, now));
            var now := GetVersion(w'.data, k, n);
            if k != up.key then now == GetVersion(w.data, k, n)
            else if cfg.retention > 0 && n <= r.record.version - cfg.retention then now == Err(NotFound)
            else if n == r.record.version then now.Ok? && RetainedAs(now.value, r.record)
            else now == GetVersion(w.data, k, n)
  {
    hide Refusal, Store.UpdateFile, PruneVersions, Valid, StoreBlob, History, RetainedAs, ToldAs, Retain, GetVersion;
    var rec := RecordOf(cfg, up, device, now);
    var (d, u) := UpdateFile(w.data, rec, up.baseVersion);
    UpdateMeans(w.data, rec, up.baseVersion);
    ApplyKeepsValid(w.data, Update(rec, up.baseVersion));
    var kept := Retain(cfg, World(d, StoreBlob(cfg, w.blobs, up)), up.key);
    RetainMeans(cfg, World(d, StoreBlob(cfg, w.blobs, up)), up.key);
    WrittenReads(w.data, d, u.value, k, n);
    RetainReads(cfg, d, kept.data, up.key, k, n);
    SavedReads(kept.data, up, u.value, k, n);
  }

  /** A write adds its version to what can be read, and changes nothing else of it. */
  lemma WrittenReads(d: Data, d': Data, f: FileRecord, k: Key, n: int)
    requires Valid(d) && Valid(d') && Written(d, d', f) && f.version == Head(d, f.key) + 1
    ensures GetVersion(d', k, n).Ok? && k == f.key && n == f.version ==> RetainedAs(GetVersion(d', k, n).value, f)
    ensures k == f.key && n == f.version ==> GetVersion(d', k, n).Ok?
    ensures k != f.key || n != f.version ==> GetVersion(d', k, n) == GetVersion(d, k, n)
  {
    hide Valid, FindVersion, RetainedAs, ToldAs;
    ReadableVersions(d, k, n);
    ReadableVersions(d', k, n);
    FoundExactly(History(d, k), n);
    FoundExactly(History(d', k), n);
    assert History(d', k) != [] && k == f.key ==> n == f.version || n < f.version || n > f.version;
    if k == f.key {
      var vs, vs' := History(d, k), History(d', k);
      assert forall i :: 0 <= i < |vs| ==> vs'[i] == vs'[..|vs|][i];
      HistoryNeedsFile(d, k);
    }
  }

  lemma HistoryNeedsFile(d: Data, k: Key)
    requires Valid(d)
    ensures History(d, k) == [] <==> k !in d.files
  {
  }

  lemma RetainReads(cfg: Config, d: Data, d': Data, key: Key, k: Key, n: int)
    requires Valid(d) && d' == if cfg.retention > 0 then PruneVersions(d, key, cfg.retention).0 else d
    ensures GetVersion(d', k, n) == if k == key && cfg.retention > 0 && n <= Head(d, key) - cfg.retention
                                    then Err(NotFound) else GetVersion(d, k, n)
  {
    hide Valid, PruneVersions, FindVersion;
    if cfg.retention > 0 {
      PruneMeans(d, key, cfg.retention);
      if k == key {
        PruneKeepsReadable(d, k, cfg.retention, n);
      }
    }
  }

  lemma SavedReads(d: Data, up: Upload, f: FileRecord, k: Key, n: int)
    ensures GetVersion(Save(d, up, f), k, n) == GetVersion(d, k, n)
  {
  }

  // ---- restoring and deleting ----

  /** `v` is the retained version of `k` with that number. */
  ghost predicate IsVersion(d: Data, k: Key, n: int, v: VersionRecord) {
    v in History(d, k) && v.version == n
  }

  /** A restore of version `n` succeeds exactly when the file is there and a version with that number is retained. The
      new head carries that version's payload over the old head, with the larger counter of each device, by this
      device and now. Otherwise the answer is "not found" and nothing changes. */
  lemma RestoreOutcome(cfg: Config, w: World, k: Key, n: int, device: DeviceId, now: int)
    requires Valid(w.data)
    ensures var (w', r) := Handle(cfg, w, RestoreRequest(k, n, device, now));
            && (r.Done? <==> k in w.data.files && exists v :: IsVersion(w.data, k, n, v))
            && (!r.Done? ==> w' == w && r == Failed(NotFound))
            && (r.Done? ==>
                  var f, cur := r.record, w.data.files[k];
                  && Written(w.data, w'.data, f) && w'.blobs == w.blobs
                  && f.key == k && f.version == cur.version + 1 && f.modifiedAt == now && f.origin == device
                  && (forall v :: IsVersion(w.data, k, n, v) ==>
                        && f.metadata == v.metadata && f.contentHash == v.contentHash && f.blobKey == v.blobKey
                        && f.size == v.size && f.deleted == v.deleted
                        && (V.NonNegative(cur.vector) ==>
                              forall d: DeviceId ::
                                V.Get(f.vector, d) == Max(V.Get(cur.vector, d), V.Get(v.vector, d)))))
  {
    hide Written, Store.UpdateFile, FindVersion, Restore.MergeVersionVector;
    FoundExactly(History(w.data, k), n);
    Restore.FoundVersion(History(w.data, k), n);
    if GetVersion(w.data, k, n).Ok? {
      assert IsVersion(w.data, k, n, GetVersion(w.data, k, n).value);
    }
    if k in w.data.files && GetVersion(w.data, k, n).Ok? {
      var cur, found := w.data.files[k], GetVersion(w.data, k, n).value;
      UpdateMeans(w.data, Restore.RestoreRecord(k, cur, found, now, device), cur.version);
      forall v | IsVersion(w.data, k, n, v)
        ensures v == found
      {
        OneVersion(w.data, k, v, found);
      }
      Restore.MergeIsMaximum(cur.vector, found.vector);
    }
  }

  lemma OneVersion(d: Data, k: Key, v: VersionRecord, u: VersionRecord)
    requires Valid(d) && v in History(d, k) && u in History(d, k) && v.version == u.version
    ensures v == u
  {
    hide FeedMatchesHead, FeedOrdered, VersionOf;
    var vs := History(d, k);
    var i :| 0 <= i < |vs| && vs[i] == v;
    var j :| 0 <= j < |vs| && vs[j] == u;
    assert vs[i].version - vs[j].version == i - j;
  }

  /** A delete succeeds exactly when the file is there: the new head is the old one marked deleted, with no size, by
      this device and now. Otherwise the answer is "not found" and nothing changes. */
  lemma DeleteOutcome(cfg: Config, w: World, k: Key, device: DeviceId, now: int)
    requires Valid(w.data)
    ensures var (w', r) := Handle(cfg, w, DeleteRequest(k, device, now));
            && (r.Done? <==> k in w.data.files)
            && (!r.Done? ==> w' == w && r == Failed(NotFound))
            && (r.Done? ==>
                  var f, cur := r.record, w.data.files[k];
                  && Written(w.data, w'.data, f) && w'.blobs == w.blobs
                  && f.key == k && f.version == cur.version + 1 && f.deleted && f.size == 0
                  && f.modifiedAt == now && f.origin == device
                  && f.metadata == cur.metadata && f.contentHash == cur.contentHash && f.blobKey == cur.blobKey
                  && f.vector == cur.vector)
  {
    hide Written, Store.UpdateFile, EndsInHead, FeedMatchesHead, FeedOrdered;
    if k in w.data.files {
      UpdateMeans(w.data, Restore.Tombstone(w.data.files[k], now, device), w.data.files[k].version);
    }
  }
}
