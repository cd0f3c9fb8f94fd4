/** The in-memory store as the program keeps it: maps and a feed that methods update in place. */
module MemStore {
  import opened Store

  class Mem {
    var files: map<Key, FileRecord>
    var versions: map<Key, seq<VersionRecord>>
    var changes: seq<Change>
    var nextSeq: int
    var idempotent: map<(AccountId, string), FileRecord>

    /** The store's whole content. */
    function Snapshot(): Data
      reads this
    {
      Data(files, versions, changes, nextSeq, idempotent)
    }

    constructor ()
      ensures Snapshot() == EMPTY && Valid(Snapshot())
    {
      files, versions, changes, nextSeq, idempotent := map[], map[], [], 1, map[];
      new;
      EmptyValid();
    }

    method CreateFile(rec: FileRecord) returns (r: Result<FileRecord>)
      modifies this
      ensures (Snapshot(), r) == Store.CreateFile(old(Snapshot()), rec)
      ensures old(Valid(Snapshot())) ==> Valid(Snapshot())
    {
      ApplyKeeps(Snapshot(), Create(rec));
      hide Valid;
      if rec.key in files {
        return Err(Duplicate);
      }
      var f := rec.(version := 1, changeSeq := nextSeq);
      Append(f);
      r := Ok(f);
    }

    method UpdateFile(rec: FileRecord, baseVersion: int) returns (r: Result<FileRecord>)
      modifies this
      ensures (Snapshot(), r) == Store.UpdateFile(old(Snapshot()), rec, baseVersion)
      ensures old(Valid(Snapshot())) ==> Valid(Snapshot())
    {
      ApplyKeeps(Snapshot(), Update(rec, baseVersion));
      hide Valid;
      if rec.key !in files {
        return Err(NotFound);
      }
      var cur := files[rec.key];
      if cur.version != baseVersion {
        return Err(Conflict);
      }
      var f := rec.(version := cur.version + 1, changeSeq := nextSeq);
      Append(f);
      r := Ok(f);
    }

    /** Puts a new head in place: record, history entry and feed entry. */
    method Append(f: FileRecord)
      requires f.changeSeq == nextSeq
      modifies this
      ensures Snapshot() == Commit(old(Snapshot()), f)
    {
      nextSeq := nextSeq + 1;
      files := files[f.key := f];
      var history := if f.key in versions then versions[f.key] else [];
      versions := versions[f.key := history + [VersionOf(f)]];
      changes := changes + [ChangeOf(f)];
    }

    method GetFile(k: Key) returns (r: Result<FileRecord>)
      ensures r == Store.GetFile(Snapshot(), k)
    {
      r := if k in files then Ok(files[k]) else Err(NotFound);
    }

    method GetVersion(k: Key, version: int) returns (r: Result<VersionRecord>)
      ensures r == Store.GetVersion(Snapshot(), k, version)
    {
      var vs := if k in versions then versions[k] else [];
      for i := 0 to |vs|
        invariant FindVersion(vs[i..], version) == Store.GetVersion(Snapshot(), k, version)
      {
        if vs[i].version == version {
          return Ok(vs[i]);
        }
        assert vs[i..][1..] == vs[i + 1..];
      }
      r := Err(NotFound);
    }

    /** Drops all but the newest `keep` versions; returns the blob keys nothing of this file needs. */
    method PruneVersions(k: Key, keep: nat) returns (pruned: seq<string>)
      modifies this
      ensures (Snapshot(), pruned) == Store.PruneVersions(old(Snapshot()), k, keep)
      ensures old(Valid(Snapshot())) && keep > 0 ==> Valid(Snapshot())
    {
      if keep > 0 {
        ApplyKeeps(Snapshot(), Prune(k, keep));
      }
      hide Valid;
      var vs := if k in versions then versions[k] else [];
      if |vs| <= keep {
        return [];
      }
      var headBlob := if k in files then files[k].blobKey else "";
      var drop, kept := vs[..|vs| - keep], vs[|vs| - keep..];
      var keptKeys := CollectKeys(headBlob, kept);
      pruned := SelectUnreferenced(drop, keptKeys);
      versions := versions[k := kept];
    }

    /** The account's changes after `since`, one page of them when `limit` is positive. */
    method ListChangesSince(account: AccountId, since: int, limit: int) returns (out: seq<Change>)
      ensures out == Store.ListChangesSince(Snapshot(), account, since, limit)
    {
      out := [];
      assert changes[..0] == [];
      for i := 0 to |changes|
        invariant out == ChangesAfter(changes[..i], account, since)
        invariant limit > 0 ==> |out| < limit
      {
        assert changes[..i + 1][..i] == changes[..i];
        if changes[i].key.account == account && changes[i].seqNo > since {
          out := out + [changes[i]];
          if limit > 0 && |out| >= limit {
            PageFull(changes, i + 1, account, since);
            return;
          }
        }
      }
      assert changes[..|changes|] == changes;
    }

    method GetIdempotentResponse(account: AccountId, key: string) returns (response: SavedResponse)
      ensures response == if (account, key) in idempotent then Found(idempotent[(account, key)]) else Missing
    {
      response := if (account, key) in idempotent then Found(idempotent[(account, key)]) else Missing;
    }

    method SaveIdempotentResponse(account: AccountId, key: string, response: FileRecord)
      modifies this
      ensures Snapshot() == SaveResponse(old(Snapshot()), account, key, response)
      ensures old(Valid(Snapshot())) ==> Valid(Snapshot())
    {
      ApplyKeeps(Snapshot(), SaveIdempotent(account, key, response));
      hide Valid;
      idempotent := idempotent[(account, key) := response];
    }
  }

  datatype SavedResponse = Missing | Found(record: FileRecord)

  lemma ApplyKeeps(d: Data, op: Op)
    requires KeepsHead(op)
    ensures Valid(d) ==> Valid(Apply(d, op))
  {
    if Valid(d) {
      ApplyKeepsValid(d, op);
    }
  }

  method CollectKeys(headBlob: string, kept: seq<VersionRecord>) returns (keys: set<string>)
    ensures keys == {headBlob} + set v <- kept :: v.blobKey
  {
    keys := {headBlob};
    for i := 0 to |kept|
      invariant keys == {headBlob} + set v <- kept[..i] :: v.blobKey
    {
      assert kept[..i + 1] == kept[..i] + [kept[i]];
      keys := keys + {kept[i].blobKey};
    }
    assert kept[..|kept|] == kept;
  }

  method SelectUnreferenced(drop: seq<VersionRecord>, keptKeys: set<string>) returns (pruned: seq<string>)
    ensures pruned == Unreferenced(drop, keptKeys)
  {
    pruned := [];
    for i := 0 to |drop|
      invariant pruned + Unreferenced(drop[i..], keptKeys) == Unreferenced(drop, keptKeys)
    {
      assert drop[i..][1..] == drop[i + 1..];
      ghost var rest := Unreferenced(drop[i + 1..], keptKeys);
      assert pruned + ([drop[i].blobKey] + rest) == pruned + [drop[i].blobKey] + rest && [] + rest == rest;
      if drop[i].blobKey !in keptKeys {
        pruned := pruned + [drop[i].blobKey];
      }
    }
  }

  /** A page that is full after a prefix of the feed is the start of the whole answer. */
  lemma {:induction false} PageFull(changes: seq<Change>, n: nat, account: AccountId, since: int)
    requires n <= |changes|
    ensures var page, all := ChangesAfter(changes[..n], account, since), ChangesAfter(changes, account, since);
            |page| <= |all| && page == all[..|page|]
  {
    if n < |changes| {
      var m := |changes| - 1;
      assert changes[..m][..n] == changes[..n];
      PageFull(changes[..m], n, account, since);
    } else {
      assert changes[..n] == changes;
    }
  }
}
