/** The sync handlers as the program runs them, step by step over the store and the blobs. */
module ServerApi {
  import opened Basics
  import opened Store
  import opened Handlers
  import MemStore
  import Restore
  import Feed

  class Server {
    const cfg: Config
    const st: MemStore.Mem
    var blobs: Blobs

    function Snapshot(): World
      reads this, st
    {
      World(st.Snapshot(), blobs)
    }

    constructor (cfg: Config)
      ensures this.cfg == cfg && fresh(st) && Snapshot() == World(EMPTY, map[])
    {
      this.cfg := cfg;
      st := new MemStore.Mem();
      blobs := map[];
    }

    method CheckIdempotency(up: Upload) returns (saved: Option<FileRecord>)
      ensures saved == Saved(st.Snapshot(), up)
    {
      if up.idemKey == "" {
        return None;
      }
      var r := st.GetIdempotentResponse(up.key.account, up.idemKey);
      saved := match r case Missing => None case Found(f) => Some(f);
    }

    method SaveIdempotency(up: Upload, f: FileRecord)
      modifies st
      ensures st.Snapshot() == Save(old(st.Snapshot()), up, f)
    {
      if up.idemKey != "" {
        st.SaveIdempotentResponse(up.key.account, up.idemKey, f);
      }
    }

    method PutBlob(up: Upload)
      requires Refusal(cfg, up).None?
      modifies this
      ensures blobs == StoreBlob(cfg, old(blobs), up)
    {
      if !up.deleted {
        blobs := blobs[up.contentHash := up.content.value];
      }
    }

    method HandleCreateFile(up: Upload, device: DeviceId, now: int) returns (r: Response)
      modifies this, st
      ensures (Snapshot(), r) == HandleCreate(cfg, old(Snapshot()), up, device, now)
    {
      hide Refusal, Store.CreateFile;
      var refusal := Refusal(cfg, up);
      if refusal.Some? {
        return refusal.value;
      }
      var saved := CheckIdempotency(up);
      if saved.Some? {
        return Replayed(saved.value);
      }
      PutBlob(up);
      var created := st.CreateFile(RecordOf(cfg, up, device, now));
      if created.Err? {
        return Failed(created.error);
      }
      SaveIdempotency(up, created.value);
      r := Done(created.value);
    }

    method HandleUpdateFile(up: Upload, device: DeviceId, now: int) returns (r: Response)
      modifies this, st
      ensures (Snapshot(), r) == HandleUpdate(cfg, old(Snapshot()), up, device, now)
    {
      hide Refusal, Store.UpdateFile, PruneVersions, StoreBlob;
      var refusal := Refusal(cfg, up);
      if refusal.Some? {
        return refusal.value;
      }
      var saved := CheckIdempotency(up);
      if saved.Some? {
        return Replayed(saved.value);
      }
      // The blob goes in before the record, so no head is ever without its blob.
      PutBlob(up);
      var updated := st.UpdateFile(RecordOf(cfg, up, device, now), up.baseVersion);
      if updated == Err(Conflict) {
        var cur := st.GetFile(up.key);
        if cur.Err? {
          return Failed(cur.error);
        }
        return Stale(cur.value);
      }
      if updated.Err? {
        return Failed(updated.error);
      }
      ApplyRetention(up.key);
      SaveIdempotency(up, updated.value);
      r := Done(updated.value);
    }

    /** Applies retention and deletes the blobs it frees, one by one. */
    method ApplyRetention(k: Key)
      modifies this, st
      ensures Snapshot() == Retain(cfg, old(Snapshot()), k)
    {
      hide PruneVersions;
      if cfg.retention <= 0 {
        return;
      }
      var keys := st.PruneVersions(k, cfg.retention);
      ghost var before := blobs;
      for i := 0 to |keys|
        modifies `blobs
        invariant blobs == WithoutBlobs(before, keys[..i])
      {
        assert keys[..i + 1] == keys[..i] + [keys[i]];
        blobs := blobs - {keys[i]};
      }
      assert keys[..|keys|] == keys;
    }

    method HandleDeleteFile(k: Key, device: DeviceId, now: int) returns (r: Response)
      modifies st
      ensures (Snapshot(), r) == HandleDelete(old(Snapshot()), k, device, now)
    {
      hide Store.UpdateFile;
      var cur := st.GetFile(k);
      if cur.Err? {
        return Failed(cur.error);
      }
      var updated := st.UpdateFile(Restore.Tombstone(cur.value, now, device), cur.value.version);
      r := if updated.Err? then Failed(updated.error) else Done(updated.value);
    }

    method HandleRestoreVersion(k: Key, version: int, device: DeviceId, now: int) returns (r: Response)
      modifies st
      ensures (Snapshot(), r) == HandleRestore(old(Snapshot()), k, version, device, now)
    {
      hide Store.UpdateFile, Restore.MergeVersionVector;
      var v := st.GetVersion(k, version);
      if v.Err? {
        return Failed(v.error);
      }
      var cur := st.GetFile(k);
      if cur.Err? {
        return Failed(cur.error);
      }
      var vector := Restore.MergeVectors(cur.value.vector, v.value.vector);
      var rec := FileRecord(k, v.value.metadata, v.value.contentHash, 0, vector, v.value.deleted,
                            v.value.size, v.value.blobKey, now, device, 0);
      var updated := st.UpdateFile(rec, cur.value.version);
      r := if updated.Err? then Failed(updated.error) else Done(updated.value);
    }

    /** One page of the feed and the cursor to poll with next. */
    method HandleChanges(account: AccountId, since: int) returns (out: seq<Change>, latest: int)
      ensures out == Store.ListChangesSince(st.Snapshot(), account, since, Feed.PAGE_LIMIT)
      ensures latest == Feed.LatestSeq(out, since) && |out| <= 1000
    {
      var changes := st.ListChangesSince(account, since, Feed.PAGE_LIMIT);
      out, latest := [], since;
      for i := 0 to |changes|
        invariant out == changes[..i]
        invariant latest == Feed.LatestSeq(changes[..i], since)
      {
        assert changes[..i + 1][..i] == changes[..i];
        out := out + [changes[i]];
        if changes[i].seqNo > latest {
          latest := changes[i].seqNo;
        }
      }
      assert changes[..|changes|] == changes;
    }
  }
}
