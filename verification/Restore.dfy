/** Records that a handler derives from the head it read: tombstones and restored versions. */
module Restore {
  import opened Basics
  import opened Store
  import opened Vectors = VersionVectors

  /** Every entry of `a`, raised to `b`'s where that is larger than the entry or than 0. */
  function MergeVersionVector(a: Vector, b: Vector): Vector {
    map d | d in a.Keys + b.Keys && (d in a || b[d] > 0) :: if d in b && b[d] > Get(a, d) then b[d] else a[d]
  }

  /** Copies one vector, then raises its entries one device at a time. */
  method MergeVectors(a: Vector, b: Vector) returns (out: Vector)
    ensures out == MergeVersionVector(a, b)
  {
    out := CopyVector(a);
    var todo := b.Keys;
    while todo != {}
      invariant todo <= b.Keys && out == MergeVersionVector(a, map d | d in b && d !in todo :: b[d])
      decreases |todo|
    {
      var d :| d in todo;
      RaiseOne(a, b, todo, d);
      if b[d] > Get(out, d) {
        out := out[d := b[d]];
      }
      todo := todo - {d};
    }
    assert (map d | d in b && d !in todo :: b[d]) == b;
  }

  method CopyVector(a: Vector) returns (out: Vector)
    ensures out == MergeVersionVector(a, map[]) && out == a
  {
    out := map[];
    var todo := a.Keys;
    while todo != {}
      invariant todo <= a.Keys && out == map d | d in a && d !in todo :: a[d]
      decreases |todo|
    {
      var d :| d in todo;
      out, todo := out[d := a[d]], todo - {d};
    }
    assert out == a;
  }

  lemma RaiseOne(a: Vector, b: Vector, todo: set<DeviceId>, d: DeviceId)
    requires todo <= b.Keys && d in todo
    ensures var out := MergeVersionVector(a, map e | e in b && e !in todo :: b[e]);
            MergeVersionVector(a, map e | e in b && e !in todo - {d} :: b[e]) ==
            if b[d] > Get(out, d) then out[d := b[d]] else out
  {
    var part := map e | e in b && e !in todo :: b[e];
    assert (map e | e in b && e !in todo - {d} :: b[e]) == part[d := b[d]];
  }

  /** The merge is the pointwise maximum exactly when no device has a negative counter in the
      first vector and no counter at all in the second. */
  lemma MergeIsMaximum(a: Vector, b: Vector)
    ensures (forall d :: Get(MergeVersionVector(a, b), d) == Max(Get(a, d), Get(b, d))) <==>
            !exists d :: d in a && d !in b && a[d] < 0
  {
    var m := MergeVersionVector(a, b);
    forall d | !(d in a && d !in b && a[d] < 0)
      ensures Get(m, d) == Max(Get(a, d), Get(b, d))
    {
    }
    if d :| d in a && d !in b && a[d] < 0 {
      assert Get(m, d) == a[d] && Max(Get(a, d), Get(b, d)) == 0;
    }
  }

  /** On counters the merge is the least upper bound of the two vectors. */
  lemma MergeIsLeastUpperBound(a: Vector, b: Vector, c: Vector)
    requires NonNegative(a)
    ensures AtLeast(MergeVersionVector(a, b), a) && AtLeast(MergeVersionVector(a, b), b)
    ensures AtLeast(c, MergeVersionVector(a, b)) <==> AtLeast(c, a) && AtLeast(c, b)
  {
    MergeIsMaximum(a, b);
    var m := MergeVersionVector(a, b);
    forall d: DeviceId
      ensures Get(m, d) >= Get(a, d) && Get(m, d) >= Get(b, d)
      ensures Get(c, d) >= Get(m, d) <==> Get(c, d) >= Get(a, d) && Get(c, d) >= Get(b, d)
    {
      assert Get(m, d) == Max(Get(a, d), Get(b, d));
    }
  }

  /** The old version's payload as a new head over `cur`. */
  function RestoreRecord(k: Key, cur: FileRecord, v: VersionRecord, now: int, device: DeviceId): FileRecord {
    FileRecord(k, v.metadata, v.contentHash, 0, MergeVersionVector(cur.vector, v.vector), v.deleted,
               v.size, v.blobKey, now, device, 0)
  }

  /** The head with its content marked as gone. */
  function Tombstone(cur: FileRecord, now: int, device: DeviceId): FileRecord {
    cur.(deleted := true, modifiedAt := now, origin := device, size := 0)
  }

  lemma {:induction false} FoundVersion(vs: seq<VersionRecord>, n: int)
    ensures FindVersion(vs, n).Ok? ==> FindVersion(vs, n).value in vs && FindVersion(vs, n).value.version == n
  {
    if vs != [] {
      FoundVersion(vs[1..], n);
    }
  }

  /** In a run of any operations a restore reads version `n`, then the head, then writes over that head; other
      writers run in between. If the write commits, it replaces exactly the head record that was read, the new
      head carries the payload that the head had when `n` was current, and its vector is the merge of the two. */
  lemma RestoreDerivedFromReplaced(early: seq<Op>, mid: seq<Op>, late: seq<Op>, k: Key, n: int, now: int,
                                   device: DeviceId)
    requires GetVersion(Run(EMPTY, early), k, n).Ok? && GetFile(Run(Run(EMPTY, early), mid), k).Ok?
    ensures var read := Run(EMPTY, early);
            var cur := GetFile(Run(read, mid), k).value;
            var before := Run(Run(read, mid), late);
            var rec := RestoreRecord(k, cur, GetVersion(read, k, n).value, now, device);
            var (after, r) := UpdateFile(before, rec, cur.version);
            r.Ok? ==>
              && GetFile(before, k) == Ok(cur)
              && GetFile(after, k) == r && r.value.version == cur.version + 1
              && (exists i: nat :: TakenFrom(early, k, n, i, cur, r.value))
  {
    hide FindVersion, MergeVersionVector, Run;
    var read := Run(EMPTY, early);
    FoundVersion(History(read, k), n);
    var v := GetVersion(read, k, n).value;
    RetainedVersionWasHead(early, k, v);
    var i: nat :| HeadAfter(early, k, v, i);
    var rec := RestoreRecord(k, Run(read, mid).files[k], v, now, device);
    ReplacedWasRead(Run(read, mid), late, k, rec);
    var r := UpdateFile(Run(Run(read, mid), late), rec, Run(read, mid).files[k].version).1;
    if r.Ok? {
      assert TakenFrom(early, k, n, i, Run(read, mid).files[k], r.value);
    }
  }

  /** `f` carries the payload of the head after the first `i` operations, which was version `n`, and the merge
      of that head's vector with that of `cur`. */
  ghost predicate TakenFrom(ops: seq<Op>, k: Key, n: int, i: nat, cur: FileRecord, f: FileRecord) {
    && i <= |ops| && k in Run(EMPTY, ops[..i]).files
    && var was := Run(EMPTY, ops[..i]).files[k];
       && was.version == n
       && f.metadata == was.metadata && f.contentHash == was.contentHash
       && f.blobKey == was.blobKey && f.size == was.size && f.deleted == was.deleted
       && f.vector == MergeVersionVector(cur.vector, was.vector)
  }

  /** A write over the head that was read commits only if that very record is still the head. */
  lemma ReplacedWasRead(read: Data, late: seq<Op>, k: Key, rec: FileRecord)
    requires k in read.files && rec.key == k
    ensures UpdateFile(Run(read, late), rec, read.files[k].version).1.Ok? ==>
              && k in Run(read, late).files
              && Run(read, late).files[k] == read.files[k]
  {
    hide Run, Extends;
    if UpdateFile(Run(read, late), rec, read.files[k].version).1.Ok? {
      VersionDeterminesRecord(read, late, k);
    }
  }

  /** A delete reads the head and writes its tombstone; if that commits, the tombstone is made from
      exactly the record it replaces. */
  lemma TombstoneDerivedFromReplaced(read: Data, late: seq<Op>, k: Key, now: int, device: DeviceId)
    requires k in read.files && read.files[k].key == k
    ensures var cur := read.files[k];
            var before := Run(read, late);
            var (after, r) := UpdateFile(before, Tombstone(cur, now, device), cur.version);
            r.Ok? ==>
              && GetFile(before, k) == Ok(cur)
              && GetFile(after, k) == r
              && r.value == cur.(deleted := true, modifiedAt := now, origin := device, size := 0,
                                 version := cur.version + 1, changeSeq := before.nextSeq)
  {
    ReplacedWasRead(read, late, k, Tombstone(read.files[k], now, device));
  }

  /** A restore's vector dominates that of the head it replaces exactly when the restored version has seen
      something the head has not; a tombstone's never does, as it is the same. */
  lemma DerivedVectorsMoveOnWhen(k: Key, cur: FileRecord, v: VersionRecord, now: int, device: DeviceId)
    requires NonNegative(cur.vector) && NonNegative(v.vector)
    ensures DominatesOf(RestoreRecord(k, cur, v, now, device).vector, cur.vector) <==> !AtLeast(cur.vector, v.vector)
    ensures Tombstone(cur, now, device).vector == cur.vector && !DominatesOf(cur.vector, cur.vector)
  {
    var merged := MergeVersionVector(cur.vector, v.vector);
    MergeIsLeastUpperBound(cur.vector, v.vector, cur.vector);
    DominatesMeans(merged, cur.vector);
    assert AtLeast(cur.vector, cur.vector);
  }
}
