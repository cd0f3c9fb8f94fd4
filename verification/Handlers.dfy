/** The sync handlers over the store and the blob storage; each call is one complete request. */
module Handlers {
  import opened Basics
  import opened Store
  import Restore
  import V = VersionVectors

  type Blobs = map<string, Bytes>

  datatype World = World(data: Data, blobs: Blobs)

  /** Server settings, and the hash that names blobs. */
  datatype Config = Config(retention: int, maxFileBytes: int, hash: Bytes -> string)

  /** An uploaded file; `None` stands for an undecodable field, an absent time means "now". */
  datatype Upload = Upload(
    key: Key, metadata: Option<Bytes>, content: Option<Bytes>, contentHash: string, baseVersion: int,
    vector: V.Vector, deleted: bool, size: int, modifiedAt: Option<int>, idemKey: string)

  datatype Request =
    | CreateRequest(up: Upload, device: DeviceId, now: int)
    | UpdateRequest(up: Upload, device: DeviceId, now: int)
    | DeleteRequest(key: Key, device: DeviceId, now: int)
    | RestoreRequest(key: Key, version: int, device: DeviceId, now: int)

  datatype Response =
    | BadRequest
    | TooLarge
    | Replayed(saved: FileRecord)
    | Done(record: FileRecord)
    | Stale(current: FileRecord)
    | Failed(error: Error)

  // ---- checking an upload ----

  predicate IsHexDigit(c: char) {
    '0' <= c <= '9' || 'a' <= c <= 'f'
  }

  predicate IsUuid(s: string) {
    |s| == 36 && forall i :: 0 <= i < 36 ==>
      if i in {8, 13, 18, 23} then s[i] == '-' else IsHexDigit(s[i]) || 'A' <= s[i] <= 'F'
  }

  predicate IsHex64(s: string) {
    |s| == 64 && forall i :: 0 <= i < 64 ==> IsHexDigit(s[i])
  }

  /** Why an upload is refused, if it is. A tombstone carries no content to check. */
  function Refusal(cfg: Config, up: Upload): (r: Option<Response>)
    ensures r.Some? ==> r.value.BadRequest? || r.value.TooLarge?
  {
    if !IsUuid(up.key.file) || !IsHex64(up.contentHash) then Some(BadRequest)
    else if up.metadata.None? || up.metadata.value == [] || |up.metadata.value| > 64 * 1024 then Some(BadRequest)
    else if up.deleted then None
    else if up.content.None? || up.content.value == [] then Some(BadRequest)
    else if |up.content.value| > cfg.maxFileBytes then Some(TooLarge)
    else if cfg.hash(up.content.value) != up.contentHash then Some(BadRequest)
    else if up.size != |up.content.value| then Some(BadRequest)
    else None
  }

  function RecordOf(cfg: Config, up: Upload, device: DeviceId, now: int): FileRecord
    requires Refusal(cfg, up).None?
  {
    FileRecord(up.key, up.metadata.value, up.contentHash, 0, up.vector, up.deleted, up.size, up.contentHash,
               if up.modifiedAt.Some? then up.modifiedAt.value else now, device, 0)
  }

  function StoreBlob(cfg: Config, blobs: Blobs, up: Upload): Blobs
    requires Refusal(cfg, up).None?
  {
    if up.deleted then blobs else blobs[up.contentHash := up.content.value]
  }

  function Saved(d: Data, up: Upload): Option<FileRecord> {
    if up.idemKey != "" && (up.key.account, up.idemKey) in d.idempotent
    then Some(d.idempotent[(up.key.account, up.idemKey)]) else None
  }

  function Save(d: Data, up: Upload, f: FileRecord): Data {
    if up.idemKey == "" then d else SaveResponse(d, up.key.account, up.idemKey, f)
  }

  // ---- the requests ----

  function HandleCreate(cfg: Config, w: World, up: Upload, device: DeviceId, now: int): (World, Response) {
    if Refusal(cfg, up).Some? then (w, Refusal(cfg, up).value)
    else if Saved(w.data, up).Some? then (w, Replayed(Saved(w.data, up).value))
    else
      var blobs := StoreBlob(cfg, w.blobs, up);
      var (d, r) := CreateFile(w.data, RecordOf(cfg, up, device, now));
      if r.Err? then (World(d, blobs), Failed(r.error))
      else (World(Save(d, up, r.value), blobs), Done(r.value))
  }

  function WithoutBlobs(blobs: Blobs, keys: seq<string>): Blobs {
    map h | h in blobs && h !in keys :: blobs[h]
  }

  /** Applies retention to one file and deletes the blobs that it frees. */
  function Retain(cfg: Config, w: World, k: Key): World {
    if cfg.retention <= 0 then w
    else
      var (d, freed) := PruneVersions(w.data, k, cfg.retention);
      World(d, WithoutBlobs(w.blobs, freed))
  }

  function HandleUpdate(cfg: Config, w: World, up: Upload, device: DeviceId, now: int): (World, Response) {
    if Refusal(cfg, up).Some? then (w, Refusal(cfg, up).value)
    else if Saved(w.data, up).Some? then (w, Replayed(Saved(w.data, up).value))
    else
      var blobs := StoreBlob(cfg, w.blobs, up);
      var (d, r) := UpdateFile(w.data, RecordOf(cfg, up, device, now), up.baseVersion);
      if r == Err(Conflict) then
        var cur := GetFile(d, up.key);
        (World(d, blobs), if cur.Ok? then Stale(cur.value) else Failed(cur.error))
      else if r.Err? then (World(d, blobs), Failed(r.error))
      else
        var kept := Retain(cfg, World(d, blobs), up.key);
        (World(Save(kept.data, up, r.value), kept.blobs), Done(r.value))
  }

  function HandleDelete(w: World, k: Key, device: DeviceId, now: int): (World, Response) {
    var cur := GetFile(w.data, k);
    if cur.Err? then (w, Failed(cur.error))
    else
      var (d, r) := UpdateFile(w.data, Restore.Tombstone(cur.value, now, device), cur.value.version);
      if r.Err? then (w.(data := d), Failed(r.error)) else (w.(data := d), Done(r.value))
  }

  function HandleRestore(w: World, k: Key, version: int, device: DeviceId, now: int): (World, Response) {
    var v := GetVersion(w.data, k, version);
    var cur := GetFile(w.data, k);
    if v.Err? then (w, Failed(v.error))
    else if cur.Err? then (w, Failed(cur.error))
    else
      var (d, r) := UpdateFile(w.data, Restore.RestoreRecord(k, cur.value, v.value, now, device), cur.value.version);
      if r.Err? then (w.(data := d), Failed(r.error)) else (w.(data := d), Done(r.value))
  }

  function Handle(cfg: Config, w: World, q: Request): (World, Response) {
    match q
    case CreateRequest(up, device, now) => HandleCreate(cfg, w, up, device, now)
    case UpdateRequest(up, device, now) => HandleUpdate(cfg, w, up, device, now)
    case DeleteRequest(k, device, now) => HandleDelete(w, k, device, now)
    case RestoreRequest(k, version, device, now) => HandleRestore(w, k, version, device, now)
  }

  function Serve(cfg: Config, w: World, qs: seq<Request>): World
    decreases |qs|
  {
    if qs == [] then w else Serve(cfg, Handle(cfg, w, qs[0]).0, qs[1..])
  }
}
