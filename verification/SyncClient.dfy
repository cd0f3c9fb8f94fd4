/** One sync client's view of one file, what it sends, and what the server's answers do to it. */
module SyncClient {
  import opened Basics
  import Merge
  import V = VersionVectors

  type Text = string

  /** The database record of a file. The program stores hashes of the two texts; equal hashes are
      taken to mean equal texts, so the texts stand for their hashes. Both are unknown in a record that was
      only made by opening the file. */
  datatype Record = Record(
    version: int, localText: Option<Text>, remoteText: Option<Text>, deleted: bool, vector: V.Vector)

  /** The two places for a preserved local text: one for refused uploads, one for remote heads. */
  datatype CopyName = FromUpload | FromHead

  /** The open conflict of the file: the head it was found against, and where the local text was preserved. */
  datatype Conflict = Conflict(remoteVersion: int, name: CopyName)

  /** The record, the base kept for the next merge, the file on disk, the conflict if one is open, the preserved
      texts, and the texts put aside beside the file by date. */
  datatype Client = Client(
    device: string, record: Option<Record>, shadow: Text, local: Option<Text>, conflict: Option<Conflict>,
    copies: map<CopyName, Text>, kept: map<string, Text>)

  /** Whether the preserved copy can be read, the file be written, and a copy be written. */
  datatype Disk = Disk(readable: bool, writable: bool, copyable: bool)

  const FINE := Disk(true, true, true)

  /** An upload: a new file or a new version over `base`. */
  datatype Request = Put(create: bool, base: int, text: Text, vector: V.Vector)

  /** An answer to an upload; a stale one comes with the head's version and vector. */
  datatype PutReply = Accepted(version: int) | Stale(current: int, vector: V.Vector) | Rejected | Offline

  /** An answer to reading the head. `Garbled` has content that does not check out, `Unreadable` is an error
      answer or has metadata that cannot be used. */
  datatype HeadReply =
    | Head(version: int, text: Text, vector: V.Vector)
    | Tombstone(version: int)
    | Garbled(version: int)
    | Unreadable
    | Unreachable

  /** What a step leaves behind, whether it counts as done, and what it sent. */
  datatype Outcome = Outcome(client: Client, ok: bool, sent: seq<Request>)

  function LocalText(c: Client): Text {
    if c.local.Some? then c.local.value else []
  }

  /** Whether nothing changed since the last sync. */
  predicate InSync(c: Client) {
    c.record.Some? && c.local.Some? && c.record.value.localText == c.local == c.record.value.remoteText
  }

  function RecordedVector(c: Client): V.Vector {
    if c.record.Some? then c.record.value.vector else map[]
  }

  /** The client and the server agree on `text` as version `version`; it is the base for later merges. */
  function Agree(c: Client, text: Text, version: int, deleted: bool, vector: V.Vector): Client {
    c.(record := Some(Record(version, Some(text), Some(text), deleted, vector)), shadow := text)
  }

  /** Preserves a local text in a conflict with version `version`. */
  function Preserve(c: Client, version: int, name: CopyName, text: Text, disk: Disk): Client {
    c.(conflict := Some(Conflict(version, name)), copies := if disk.copyable then c.copies[name := text] else c.copies)
  }

  predicate WasDeleted(c: Client) {
    c.record.Some? && c.record.value.deleted
  }

  // ---- uploading ----

  /** An upload of the local text over the recorded version, or as a new file. */
  function UploadRequest(c: Client): Request
    requires c.local.Some?
  {
    var base := if c.record.Some? then c.record.value.version else 0;
    Put(base == 0, base, c.local.value, V.Bump(RecordedVector(c), c.device))
  }

  /** An upload of a merge over the version named in the refusal. */
  function MergeRequest(c: Client, current: int, vector: V.Vector, merged: Text): Request {
    Put(false, current, merged, V.Bump(vector, c.device))
  }

  /** An accepted upload clears the deleted flag; an accepted merge leaves it as it was. */
  function AfterUpload(c: Client, sent: Request, version: int): Client {
    Agree(c, sent.text, version, false, sent.vector)
  }

  function AfterMerge(c: Client, sent: Request, version: int): Client {
    Agree(c, sent.text, version, WasDeleted(c), sent.vector)
  }

  /** Merges the head that was fetched after a refusal into the local file. A clean merge goes to disk
      and is to be uploaded; otherwise the local text is preserved in a conflict over version `current`. */
  function MergeFetched(c: Client, current: int, remote: Text, disk: Disk): (Client, Option<Text>) {
    var m := Merge.MergeTexts(c.shadow, LocalText(c), remote);
    if m.clean then (c.(local := Some(m.merged)), Some(m.merged))
    else (Preserve(c, current, FromUpload, LocalText(c), disk), None)
  }

  /** What `HandleConflict` comes to: fetch, merge, upload over the version named in the refusal. */
  function AfterConflict(c: Client, current: int, vector: V.Vector, fetched: HeadReply, disk: Disk, put: PutReply)
    : Outcome
  {
    if !fetched.Head? then Outcome(c, false, [])
    else
      var (c', merged) := MergeFetched(c, current, fetched.text, disk);
      if merged.None? then Outcome(c', true, [])
      else if !disk.writable then Outcome(c, false, [])
      else
        var sent := MergeRequest(c, current, vector, merged.value);
        if put.Accepted? then Outcome(AfterMerge(c', sent, put.version), true, [sent])
        else Outcome(Preserve(c', current, FromUpload, LocalText(c), disk), true, [sent])
  }

  /** What the answer to an upload leads to. */
  function AfterAnswer(c: Client, sent: Request, put: PutReply, fetched: HeadReply, disk: Disk, put2: PutReply)
    : Outcome
  {
    match put
    case Accepted(version) => Outcome(AfterUpload(c, sent, version), true, [sent])
    case Stale(current, vector) =>
      var after := AfterConflict(c, current, vector, fetched, disk, put2);
      after.(sent := [sent] + after.sent)
    case Rejected => Outcome(c, false, [sent])
    case Offline => Outcome(c, false, [sent])
  }

  /** What `UploadFile` comes to: `put` answers the upload, the last three the reads and writes of the
      conflict that a refusal leads to. */
  function AfterUploadFile(c: Client, limit: nat, put: PutReply, fetched: HeadReply, disk: Disk, put2: PutReply)
    : Outcome
  {
    if c.local.None? || |c.local.value| > limit then Outcome(c, false, [])
    else if InSync(c) then Outcome(c, true, [])
    else AfterAnswer(c, UploadRequest(c), put, fetched, disk, put2)
  }

  // ---- resolving a conflict ----

  /** `KeepBoth` names the copy it puts aside after the date. */
  datatype Strategy = KeepLocal | KeepRemote | KeepBoth(date: string) | Unknown

  /** The preserved text of the open conflict, if it is still there. */
  function CopyText(c: Client): Option<Text> {
    if c.conflict.Some? && c.conflict.value.name in c.copies then Some(c.copies[c.conflict.value.name]) else None
  }

  /** An upload of the preserved copy over the head that the conflict was found against. */
  function KeepRequest(c: Client): Request
    requires CopyText(c).Some?
  {
    Put(false, c.conflict.value.remoteVersion, CopyText(c).value, V.Bump(RecordedVector(c), c.device))
  }

  /** An accepted copy. The record keeps its old vector, although a bumped one was sent. */
  function AfterKeep(c: Client, sent: Request, version: int): Client {
    (if c.record.Some? then Agree(c, sent.text, version, c.record.value.deleted, c.record.value.vector) else c)
      .(conflict := None)
  }

  /** Keeping the local side: the copy goes back to disk, whatever is there, and is uploaded. */
  function AfterKeepLocal(c: Client, disk: Disk, put: PutReply): Outcome {
    if !disk.readable || CopyText(c).None? then Outcome(c, false, [])
    else
      var c' := if disk.writable then c.(local := CopyText(c)) else c;
      var sent := KeepRequest(c);
      if put.Accepted? then Outcome(AfterKeep(c', sent, put.version), true, [sent]) else Outcome(c', false, [sent])
  }

  /** Moves the preserved copy beside the file. */
  function PutAside(c: Client, date: string): Client {
    if CopyText(c).None? then c
    else c.(kept := c.kept[date := CopyText(c).value], copies := c.copies - {c.conflict.value.name})
  }

  /** Keeping the remote side: the head goes to disk. Keeping both first puts the copy aside, and leaves the
      record's vector as it was. */
  function AfterKeepRemote(c: Client, aside: Option<string>, disk: Disk, fetched: HeadReply): Outcome {
    if !fetched.Head? then Outcome(c, false, [])
    else
      var moved := if aside.Some? then PutAside(c, aside.value) else c;
      if !disk.writable then Outcome(moved, false, [])
      else
        var c' := moved.(local := Some(fetched.text));
        var vector := if aside.Some? then RecordedVector(c) else fetched.vector;
        var done := if c.record.Some? then Agree(c', fetched.text, fetched.version, WasDeleted(c), vector) else c';
        Outcome(done.(conflict := None), true, [])
  }

  function AfterResolve(c: Client, strategy: Strategy, disk: Disk, put: PutReply, fetched: HeadReply): Outcome {
    if c.conflict.None? then Outcome(c, false, [])
    else
      match strategy
      case KeepLocal => AfterKeepLocal(c, disk, put)
      case KeepRemote => AfterKeepRemote(c, None, disk, fetched)
      case KeepBoth(date) => AfterKeepRemote(c, Some(date), disk, fetched)
      case Unknown => Outcome(c, false, [])
  }

  // ---- opening the file ----

  /** Opening a file that has no record makes one that knows nothing. */
  function AfterOpen(c: Client): Client {
    if c.record.Some? then c else c.(record := Some(Record(0, None, None, false, map[])))
  }

  // ---- applying a remote head ----

  /** The local file differs from both recorded texts; a record without a local text does not tell. */
  predicate HasUnsyncedEdits(c: Client) {
    && c.record.Some? && c.local.Some? && c.record.value.localText.Some?
    && c.local != c.record.value.localText && c.local != c.record.value.remoteText
  }

  predicate AlreadyAt(c: Client, version: int) {
    c.record.Some? && c.record.value.version >= version
  }

  /** What `ApplyRemoteFile` comes to: newer heads replace the local file unless it has own edits. */
  function AfterApply(c: Client, head: HeadReply, ignored: bool, disk: Disk): (Client, bool) {
    if head.Unreadable? || head.Unreachable? then (c, false)
    else if ignored || AlreadyAt(c, head.version) then (c, true)
    else
      match head
      case Tombstone(version) =>
        var c' := c.(local := None);
        (if c.record.Some? then c'.(record := Some(c.record.value.(deleted := true, version := version))) else c', true)
      case Garbled(version) => (c, false)
      case Head(version, text, vector) =>
        if HasUnsyncedEdits(c) then (Preserve(c, version, FromHead, c.local.value, disk), true)
        else if !disk.writable then (c, false)
        else (Agree(c.(local := Some(text)), text, version, false, vector), true)
  }
}
