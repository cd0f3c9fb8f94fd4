/** What the store's operations leave behind, field by field. */
module StoreLaws {
  import opened Basics
  import opened Store

  // ---- writes ----

  /** Everything that a writer decides; the store gives out the version and the change number. */
  predicate SamePayload(f: FileRecord, rec: FileRecord) {
    && f.key == rec.key && f.metadata == rec.metadata && f.contentHash == rec.contentHash && f.vector == rec.vector
    && f.deleted == rec.deleted && f.size == rec.size && f.blobKey == rec.blobKey
    && f.modifiedAt == rec.modifiedAt && f.origin == rec.origin
  }

  /** The history entry of a record. */
  predicate RetainedAs(v: VersionRecord, f: FileRecord) {
    && v.key == f.key && v.version == f.version && v.metadata == f.metadata && v.contentHash == f.contentHash
    && v.vector == f.vector && v.deleted == f.deleted && v.size == f.size && v.blobKey == f.blobKey
    && v.modifiedAt == f.modifiedAt && v.origin == f.origin
  }

  /** The feed entry of a record. */
  predicate ToldAs(c: Change, f: FileRecord) {
    && c.seqNo == f.changeSeq && c.key == f.key && c.version == f.version && c.origin == f.origin
    && (c.kind == Delete <==> f.deleted)
  }

  /** The state after writing `f`: it is the head, the newest history entry, and the newest change; nothing else
      differs. */
  ghost predicate Written(d: Data, d': Data, f: FileRecord) {
    && d'.files == d.files[f.key := f]
    && |History(d', f.key)| == |History(d, f.key)| + 1
    && History(d', f.key)[..|History(d, f.key)|] == History(d, f.key)
    && RetainedAs(History(d', f.key)[|History(d, f.key)|], f)
    && (forall k: Key :: k != f.key ==> History(d', k) == History(d, k))
    && |d'.changes| == |d.changes| + 1 && d'.changes[..|d.changes|] == d.changes
    && ToldAs(d'.changes[|d.changes|], f)
    && f.changeSeq == d.nextSeq && d'.nextSeq == d.nextSeq + 1 && d'.idempotent == d.idempotent
  }

  /** Creating writes version 1 of a file that is not there, and is refused exactly when it is. */
  lemma CreateMeans(d: Data, rec: FileRecord)
    ensures var (d', r) := CreateFile(d, rec);
            if rec.key in d.files then d' == d && r == Err(Duplicate)
            else r.Ok? && Written(d, d', r.value) && SamePayload(r.value, rec) && r.value.version == 1
  {
  }

  /** Updating writes the next version over the base version that the writer names, and is refused exactly when the
      file is not there or its head has another number. */
  lemma UpdateMeans(d: Data, rec: FileRecord, base: int)
    ensures var (d', r) := UpdateFile(d, rec, base);
            if rec.key !in d.files then d' == d && r == Err(NotFound)
            else if d.files[rec.key].version != base then d' == d && r == Err(Conflict)
            else r.Ok? && Written(d, d', r.value) && SamePayload(r.value, rec) && r.value.version == base + 1
  {
  }

  // ---- reading versions ----

  /** A version is found exactly when the list has one with its number, and then the first such. */
  lemma {:induction false} FoundExactly(vs: seq<VersionRecord>, n: int)
    ensures FindVersion(vs, n).Ok? <==> exists v <- vs :: v.version == n
    ensures FindVersion(vs, n).Ok? ==> exists i :: 0 <= i < |vs| && FindVersion(vs, n).value == vs[i]
                                          && vs[i].version == n && forall j :: 0 <= j < i ==> vs[j].version != n
    ensures FindVersion(vs, n).Err? ==> FindVersion(vs, n) == Err(NotFound)
  {
    if vs != [] && vs[0].version != n {
      FoundExactly(vs[1..], n);
      if FindVersion(vs[1..], n).Ok? {
        var i :| 0 <= i < |vs[1..]| && FindVersion(vs[1..], n).value == vs[1..][i]
                 && vs[1..][i].version == n && forall j :: 0 <= j < i ==> vs[1..][j].version != n;
        assert forall j :: 0 < j < i + 1 ==> vs[j] == vs[1..][j - 1];
        assert vs[i + 1] == vs[1..][i];
      }
      assert forall v <- vs :: v == vs[0] || v in vs[1..];
    }
  }

  /** In a valid store the readable versions of a file are the last ones up to its head, as many as are retained. */
  lemma ReadableVersions(d: Data, k: Key, n: int)
    requires Valid(d)
    ensures GetVersion(d, k, n).Ok? <==> k in d.files && Head(d, k) - |History(d, k)| < n <= Head(d, k)
    ensures GetVersion(d, k, n).Ok? ==>
              GetVersion(d, k, n).value == History(d, k)[n - Head(d, k) + |History(d, k)| - 1]
  {
    hide FeedMatchesHead, FeedOrdered, VersionOf, FindVersion;
    var vs := History(d, k);
    FoundExactly(vs, n);
    if k in d.files && Head(d, k) - |vs| < n <= Head(d, k) {
      var at := n - Head(d, k) + |vs| - 1;
      assert vs[at].version == n && vs[at] in vs;
    }
  }

  // ---- retention ----

  /** Pruning to `keep` leaves the newest `keep` versions of that file, or all if there are no more, and nothing else
      differs. */
  lemma PruneMeans(d: Data, k: Key, keep: nat)
    ensures var d', vs := PruneVersions(d, k, keep).0, History(d, k);
            && |History(d', k)| == Min(keep, |vs|)
            && (forall i :: 0 <= i < Min(keep, |vs|) ==>
                  History(d', k)[i] == vs[|vs| - Min(keep, |vs|) + i])
            && (forall j: Key :: j != k ==> History(d', j) == History(d, j))
            && d'.files == d.files && d'.changes == d.changes && d'.nextSeq == d.nextSeq
            && d'.idempotent == d.idempotent
  {
    hide Unreferenced, KeptKeys;
    var d', vs := PruneVersions(d, k, keep).0, History(d, k);
    assert d'.versions == if |vs| <= keep then d.versions else d.versions[k := vs[|vs| - keep..]];
    assert |vs| > keep ==> History(d', k) == vs[|vs| - keep..];
    forall j: Key | j != k
      ensures History(d', j) == History(d, j)
    {
    }
  }

  /** So in a valid store exactly the newest `keep` versions stay readable, each as it was. */
  lemma PruneKeepsReadable(d: Data, k: Key, keep: nat, n: int)
    requires Valid(d) && keep > 0
    ensures var d' := PruneVersions(d, k, keep).0;
            GetVersion(d', k, n) == if n > Head(d, k) - keep then GetVersion(d, k, n) else Err(NotFound)
  {
    hide Valid, FindVersion;
    var d' := PruneVersions(d, k, keep).0;
    PruneMeans(d, k, keep);
    PruneKeepsValid(d, k, keep);
    ReadableVersions(d, k, n);
    ReadableVersions(d', k, n);
    FoundExactly(History(d', k), n);
    FoundExactly(History(d, k), n);
  }
}
