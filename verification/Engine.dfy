/** The sync engine's steps on one file, updating its state in place. Each method takes the answers of the
    server and of the disk as parameters, and returns what it sent. */
module Engine {
  import opened Basics
  import opened SyncClient
  import Merge
  import Sweep
  import V = VersionVectors

  class SyncEngine {
    const device: string
    const maxFileBytes: nat
    var record: Option<Record>
    var shadow: Text
    var local: Option<Text>
    var conflict: Option<Conflict>
    var copies: map<CopyName, Text>
    var kept: map<string, Text>
    var online: bool

    constructor (device: string, maxFileBytes: nat)
      ensures State() == Client(device, None, [], None, None, map[], map[])
      ensures this.maxFileBytes == maxFileBytes && online
    {
      this.device, this.maxFileBytes := device, maxFileBytes;
      record, shadow, local, conflict, copies, kept, online := None, [], None, None, map[], map[], true;
    }

    function State(): Client
      reads this
    {
      Client(device, record, shadow, local, conflict, copies, kept)
    }

    /** The payload of an upload: the base vector with the own counter raised. */
    function Payload(create: bool, base: int, text: Text, vector: V.Vector): Request {
      Put(create, base, text, V.Bump(vector, device))
    }

    /** The payload for the local text, over the recorded version. */
    method UploadPayload(text: Text) returns (request: Request)
      requires local == Some(text)
      ensures request == UploadRequest(State()) && request.text == text
    {
      var baseVersion := if record.Some? then record.value.version else 0;
      var vector := if record.Some? then record.value.vector else map[];
      request := Payload(baseVersion == 0, baseVersion, text, vector);
    }

    /** Uploads the local file, or merges it with a head that got there first. */
    method UploadFile(put: PutReply, fetched: HeadReply, disk: Disk, put2: PutReply)
      returns (ok: bool, sent: seq<Request>)
      modifies this
      ensures Outcome(State(), ok, sent) == AfterUploadFile(old(State()), maxFileBytes, put, fetched, disk, put2)
      ensures online == if sent == [] then old(online) else put != Offline
    {
      hide AfterAnswer, UploadRequest;
      if local.None? || |local.value| > maxFileBytes {
        return false, [];
      }
      var text := local.value;
      if record.Some? && record.value.localText == Some(text) && record.value.remoteText == Some(text) {
        return true, [];
      }
      var request := UploadPayload(text);
      ok, sent := TakeAnswer(request, put, fetched, disk, put2);
    }

    /** Acts on the answer to an upload. */
    method TakeAnswer(request: Request, put: PutReply, fetched: HeadReply, disk: Disk, put2: PutReply)
      returns (ok: bool, sent: seq<Request>)
      modifies this
      ensures Outcome(State(), ok, sent) == AfterAnswer(old(State()), request, put, fetched, disk, put2)
      ensures online == (put != Offline) && sent != []
    {
      hide AfterConflict;
      online := !put.Offline?;
      match put
      case Accepted(version) =>
        record := Some(Record(version, Some(request.text), Some(request.text), false, request.vector));
        shadow := request.text;
        return true, [request];
      case Stale(current, vector) =>
        ok, sent := HandleConflict(current, vector, fetched, disk, put2);
        sent := [request] + sent;
      case Rejected =>
        return false, [request];
      case Offline =>
        return false, [request];
    }

    /** Merges the fetched head into the local file and uploads the result over the version the refusal
        named; when that is not possible, preserves the local text in a conflict. */
    method HandleConflict(current: int, vector: V.Vector, fetched: HeadReply, disk: Disk, put: PutReply)
      returns (ok: bool, sent: seq<Request>)
      modifies this`record, this`shadow, this`local, this`conflict, this`copies
      ensures Outcome(State(), ok, sent) == AfterConflict(old(State()), current, vector, fetched, disk, put)
    {
      hide Merge.MergeTexts;
      sent := [];
      if !fetched.Head? {
        return false, sent;
      }
      var localText := if local.Some? then local.value else [];
      var merged := Sweep.ThreeWayMerge(shadow, localText, fetched.text);
      if merged.clean {
        if !disk.writable {
          return false, sent;
        }
        local := Some(merged.merged);
        var request := Payload(false, current, merged.merged, vector);
        sent := [request];
        if put.Accepted? {
          var deleted := record.Some? && record.value.deleted;
          record := Some(Record(put.version, Some(merged.merged), Some(merged.merged), deleted, request.vector));
          shadow := merged.merged;
          return true, sent;
        }
      }
      if disk.copyable {
        copies := copies[FromUpload := localText];
      }
      conflict := Some(Conflict(current, FromUpload));
      return true, sent;
    }

    /** The user picks a side of the open conflict. */
    method ResolveConflict(strategy: Strategy, disk: Disk, put: PutReply, fetched: HeadReply)
      returns (ok: bool, sent: seq<Request>)
      modifies this`record, this`shadow, this`local, this`conflict, this`copies, this`kept
      ensures Outcome(State(), ok, sent) == AfterResolve(old(State()), strategy, disk, put, fetched)
    {
      sent := [];
      if conflict.None? {
        return false, sent;
      }
      var name := conflict.value.name;
      match strategy {
        case KeepLocal =>
          if !disk.readable || name !in copies {
            return false, sent;
          }
          var data := copies[name];
          if disk.writable {
            local := Some(data);
          }
          var vector := if record.Some? then record.value.vector else map[];
          sent := [Payload(false, conflict.value.remoteVersion, data, vector)];
          if !put.Accepted? {
            return false, sent;
          }
          if record.Some? {
            record := Some(record.value.(localText := Some(data), remoteText := Some(data), version := put.version));
            shadow := data;
          }
        case KeepRemote =>
          if !fetched.Head? || !disk.writable {
            return false, sent;
          }
          local := Some(fetched.text);
          if record.Some? {
            record := Some(record.value.(localText := local, remoteText := local, version := fetched.version,
                                         vector := fetched.vector));
            shadow := fetched.text;
          }
        case KeepBoth(date) =>
          if !fetched.Head? {
            return false, sent;
          }
          if name in copies {
            kept, copies := kept[date := copies[name]], copies - {name};
          }
          if !disk.writable {
            return false, sent;
          }
          local := Some(fetched.text);
          if record.Some? {
            record := Some(record.value.(localText := local, remoteText := local, version := fetched.version));
            shadow := fetched.text;
          }
        case Unknown =>
          return false, sent;
      }
      conflict := None;
      return true, sent;
    }

    /** The user opens the file in the editor. */
    method OnFileOpened()
      modifies this`record
      ensures State() == AfterOpen(old(State()))
    {
      if record.None? {
        record := Some(Record(0, None, None, false, map[]));
      }
    }

    /** Brings a remote head to disk, unless the record is as new or the local file has own edits. */
    method ApplyRemoteFile(head: HeadReply, ignored: bool, disk: Disk) returns (ok: bool)
      modifies this
      ensures (State(), ok) == AfterApply(old(State()), head, ignored, disk)
      ensures online == !head.Unreachable?
    {
      if head.Unreachable? {
        online := false;
        return false;
      }
      online := true;
      if head.Unreadable? {
        return false;
      }
      if ignored {
        return true;
      }
      if record.Some? && record.value.version >= head.version {
        return true;
      }
      if head.Tombstone? {
        local := None;
        if record.Some? {
          record := Some(record.value.(deleted := true, version := head.version));
        }
        return true;
      }
      if head.Garbled? {
        return false;
      }
      if local.Some? && record.Some? {
        var text := record.value.localText;
        if text.Some? && local != text && local != record.value.remoteText {
          if disk.copyable {
            copies := copies[FromHead := local.value];
          }
          conflict := Some(Conflict(head.version, FromHead));
          return true;
        }
      }
      if !disk.writable {
        return false;
      }
      local := Some(head.text);
      record := Some(Record(head.version, local, local, false, head.vector));
      shadow := head.text;
      return true;
    }
  }
}
