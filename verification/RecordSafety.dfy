/** What the steps of the sync protocol do to a client's record, base and open conflict, and what they commit. */
module RecordSafety {
  import opened Basics
  import opened Store
  import opened SyncClient
  import opened Protocol
  import opened ProtocolLaws
  import opened TextSafety
  import SyncSafety
  import Merge
  import V = VersionVectors

  // ---- the record after every step ----

  /** A record of a text both sides agree on. */
  function Agreed(version: int, text: Text, deleted: bool, vector: V.Vector): Option<Record> {
    Some(Record(version, Some(text), Some(text), deleted, vector))
  }

  /** The step brings the answer to an accepted upload. */
  predicate HearsAnswer(step: Step, n: Node) { step.Receive? && n.stage.Answered? }

  /** The record a step leaves with the client that takes it. A kept copy, and a head taken while the copy is put
      aside, leave the recorded vector alone; only a plain upload and an applied head clear the deleted flag. */
  function RecordAfter(p: Setting, s: State, step: Step, n: Node): Option<Record> {
    var r, head := n.client.record, HeadOf(p, s);
    if HearsAnswer(step, n) then
      var text, version, vector := n.stage.sent.text, n.stage.version, n.stage.sent.vector;
      match n.stage.flow
      case Upload => Agreed(version, text, false, vector)
      case ConflictMerge(_) => Agreed(version, text, r.Some? && r.value.deleted, vector)
      case Resolve => if r.Some? then Agreed(version, text, r.value.deleted, r.value.vector) else None
    else if AppliesHead(p, s, step, n) then Agreed(head.version, head.text, false, head.vector)
    else if TakesHead(p, s, step, n) && r.Some? then
      Agreed(head.version, head.text, r.value.deleted, if step.aside.Some? then r.value.vector else head.vector)
    else if AppliesTombstone(p, s, step, n) && r.Some? then
      Some(Record(head.version, r.value.localText, r.value.remoteText, true, r.value.vector))
    else if step.Forget? && n.stage == Idle then None
    else if step.Open? && r.None? then Some(Record(0, None, None, false, map[]))
    else r
  }

  /** The base for later merges moves exactly when client and server agree on a text. */
  function BaseAfter(p: Setting, s: State, step: Step, n: Node): Text {
    if HearsAnswer(step, n) && (n.stage.flow.Resolve? ==> n.client.record.Some?) then n.stage.sent.text
    else if AppliesHead(p, s, step, n) || (TakesHead(p, s, step, n) && n.client.record.Some?) then HeadOf(p, s).text
    else n.client.shadow
  }

  /** The version a new conflict is opened against. */
  function ConflictVersion(p: Setting, s: State, step: Step, n: Node): int
    requires Preserved(p, s, step, n).Some?
  {
    if n.stage.Merging? || n.stage.Answered? then n.stage.sent.base
    else if n.stage.Told? then n.stage.current
    else HeadOf(p, s).version
  }

  /** A conflict opens with the text it preserves, and closes when a side is kept and the server has it. */
  function ConflictAfter(p: Setting, s: State, step: Step, n: Node): Option<SyncClient.Conflict> {
    var made := Preserved(p, s, step, n);
    if made.Some? then Some(SyncClient.Conflict.Conflict(ConflictVersion(p, s, step, n), made.value.name))
    else if TakesHead(p, s, step, n) || (HearsAnswer(step, n) && n.stage.flow.Resolve?) then None
    else n.client.conflict
  }

  predicate RecordIs(p: Setting, s: State, step: Step, n: Node, after: Client) {
    && after.device == n.client.device && after.record == RecordAfter(p, s, step, n)
    && after.shadow == BaseAfter(p, s, step, n) && after.conflict == ConflictAfter(p, s, step, n)
  }

  /** Over every step of the protocol, a client's record, base and conflict change only by its own steps, and exactly
      as these functions say. */
  lemma RecordChangesExactly(p: Setting, s: State, step: Step, c: ClientId)
    requires c in s.nodes
    ensures c in Do(p, s, step).nodes
    ensures var n, n' := s.nodes[c], Do(p, s, step).nodes[c];
            if By(step, c) then RecordIs(p, s, step, n, n'.client) else n' == n
  {
    hide Do, DoClient, RecordIs, FileAfter;
    FileChangesExactly(p, s, step, c);
    if By(step, c) {
      OwnStep(p, s, step);
      match step
      case FetchAndMerge(_) => FetchRecords(p, s, step);
      case SendMerge(_, _) => SendMergeRecords(p, s, step);
      case Drop(_) => AnswerRecords(p, s, step);
      case Receive(_) => AnswerRecords(p, s, step);
      case TakeRemote(_, _) => TakeRecords(p, s, step);
      case ApplyRemote(_) => ApplyRecords(p, s, step);
      case _ => OtherRecords(p, s, step);
    } else {
      OtherNodesStay(p, s, step, c);
    }
  }

  lemma FetchRecords(p: Setting, s: State, step: Step)
    requires step.FetchAndMerge? && step.c in s.nodes
    ensures RecordIs(p, s, step, s.nodes[step.c], DoClient(p, s, step, s.nodes[step.c]).nodes[step.c].client)
  {
    hide HeadOf, V.Bump, Merge.MergeTexts;
  }

  lemma SendMergeRecords(p: Setting, s: State, step: Step)
    requires step.SendMerge? && step.c in s.nodes
    ensures RecordIs(p, s, step, s.nodes[step.c], DoClient(p, s, step, s.nodes[step.c]).nodes[step.c].client)
  {
    hide UpdateFile, HeadOf, V.Bump, Carries, Merge.MergeTexts;
  }

  lemma AnswerRecords(p: Setting, s: State, step: Step)
    requires (step.Drop? || step.Receive?) && step.c in s.nodes
    ensures RecordIs(p, s, step, s.nodes[step.c], DoClient(p, s, step, s.nodes[step.c]).nodes[step.c].client)
  {
    hide HeadOf, V.Bump, Merge.MergeTexts;
  }

  lemma TakeRecords(p: Setting, s: State, step: Step)
    requires step.TakeRemote? && step.c in s.nodes
    ensures RecordIs(p, s, step, s.nodes[step.c], DoClient(p, s, step, s.nodes[step.c]).nodes[step.c].client)
  {
    hide HeadOf, CopyText, V.Bump, Merge.MergeTexts;
  }

  lemma ApplyRecords(p: Setting, s: State, step: Step)
    requires step.ApplyRemote? && step.c in s.nodes
    ensures RecordIs(p, s, step, s.nodes[step.c], DoClient(p, s, step, s.nodes[step.c]).nodes[step.c].client)
  {
    hide HeadOf, CopyText, V.Bump, Merge.MergeTexts;
  }

  lemma OtherRecords(p: Setting, s: State, step: Step)
    requires !step.CommitOther? && !step.SaveAnswer? && !step.Elsewhere? && step.c in s.nodes
    requires !step.FetchAndMerge? && !step.SendMerge? && !step.Drop? && !step.Receive?
    requires !step.TakeRemote? && !step.ApplyRemote?
    ensures RecordIs(p, s, step, s.nodes[step.c], DoClient(p, s, step, s.nodes[step.c]).nodes[step.c].client)
  {
    hide UpdateFile, HeadOf, SavedAnswer, CopyText, V.Bump, InSync, Carries, UploadRequest, KeepRequest, MergeFetched,
         AfterApply, AfterKeepRemote, Merge.MergeTexts;
  }

  // ---- records and the versions they name ----

  /** The record of a committed version. */
  function RecordAt(p: Setting, log: Log, version: int, deleted: bool): Option<Record>
    requires 1 <= version <= |log|
  {
    Agreed(version, TextAt(p, log, version), deleted, VectorAt(log, version))
  }

  /** A head that is applied, or taken to resolve a conflict, is recorded as exactly the last version committed, with
      its text and its vector; an accepted upload or merge as exactly the version it committed. An upload answered from
      memory is recorded with the version that was named and its text, but with the vector that was sent, and a kept
      copy with the vector that was recorded before; each is that version's exactly when those are equal. */
  predicate RecordsTheLog(p: Setting, s: State, step: Step, n: Node, after: Client) {
    && |s.log| >= 1
    && (AppliesHead(p, s, step, n) ==> after.record == RecordAt(p, s.log, |s.log|, false))
    && (TakesHead(p, s, step, n) && step.aside.None? && n.client.record.Some? ==>
          after.record == RecordAt(p, s.log, |s.log|, n.client.record.value.deleted))
    && (HearsAnswer(step, n) && !n.stage.flow.Resolve? ==>
          var v, deleted := n.stage.version, n.stage.flow.ConflictMerge? && WasDeleted(n.client);
          && Live(s.log, v)
          && after.record == Agreed(v, TextAt(p, s.log, v), deleted, n.stage.sent.vector)
          && (after.record == RecordAt(p, s.log, v, deleted) <==> n.stage.sent.vector == VectorAt(s.log, v))
          && (!n.stage.replayed ==> after.record == RecordAt(p, s.log, v, deleted)))
    && (HearsAnswer(step, n) && n.stage.flow.Resolve? && n.client.record.Some? ==>
          var v, r := n.stage.version, n.client.record.value;
          && Live(s.log, v) && after.record == Agreed(v, TextAt(p, s.log, v), r.deleted, r.vector)
          && (after.record == RecordAt(p, s.log, v, r.deleted) <==> r.vector == VectorAt(s.log, v)))
  }

  /** Over every run, what a client records is what the server committed. */
  lemma RecordsMatchTheLog(p: Setting, s0: State, steps: seq<Step>, step: Step, c: ClientId)
    requires SyncSafety.Start(p, s0) && KeysDistinct(p)
    ensures var s := Protocol.Run(p, s0, steps);
            var s' := Do(p, s, step);
            c in s.nodes && By(step, c) ==>
              c in s'.nodes && RecordsTheLog(p, s, step, s.nodes[c], s'.nodes[c].client)
  {
    hide Protocol.Run, SyncSafety.Start, Do, StageOk, RecordOk, EntriesOk, AnswersOk, NodesOk, RetainedOk, AppliesHead,
         TakesHead, AppliesTombstone, HeadOf, Merge.MergeTexts;
    SyncSafety.StartKeeps(p, s0);
    RunKeeps(p, s0, steps);
    var s := Protocol.Run(p, s0, steps);
    if c in s.nodes && By(step, c) {
      NodeIsOk(p, s, c);
      LastIsThere(p, s);
      RecordChangesExactly(p, s, step, c);
      StepKinds(p, s, step, s.nodes[c]);
      if s.nodes[c].stage.Answered? {
        AnswerIsLogged(p, s.log, s.nodes[c]);
      }
    }
  }

  lemma LastIsThere(p: Setting, s: State)
    requires Inv(p, s)
    ensures |s.log| >= 1
    ensures var head := HeadOf(p, s);
            head.Head? ==> head.version == |s.log| && head.text == TextAt(p, s.log, |s.log|)
                           && head.vector == VectorAt(s.log, |s.log|)
  {
    hide NodesOk, EntriesOk, AnswersOk, RetainedOk;
  }

  lemma StepKinds(p: Setting, s: State, step: Step, n: Node)
    ensures AppliesHead(p, s, step, n) ==> HeadOf(p, s).Head? && !HearsAnswer(step, n)
    ensures TakesHead(p, s, step, n) ==>
              step.TakeRemote? && HeadOf(p, s).Head? && !HearsAnswer(step, n) && !AppliesHead(p, s, step, n)
  {
    hide HeadOf;
  }

  lemma AnswerIsLogged(p: Setting, log: Log, n: Node)
    requires NodeOk(p, log, n) && n.stage.Answered?
    ensures Live(log, n.stage.version) && TextAt(p, log, n.stage.version) == n.stage.sent.text
    ensures !n.stage.replayed ==> VectorAt(log, n.stage.version) == n.stage.sent.vector
  {
    hide RecordOk, Merge.MergeTexts;
  }

  /** In every reachable state a client that recorded a live version has nothing to upload exactly when its file is the
      plaintext of that version, and sees own edits exactly when its file is another text. */
  lemma EditsAreSeen(p: Setting, s0: State, steps: seq<Step>, c: ClientId)
    requires SyncSafety.Start(p, s0) && KeysDistinct(p)
    ensures var s := Protocol.Run(p, s0, steps);
            c in s.nodes && Knows(s.nodes[c].client) && Live(s.log, s.nodes[c].client.record.value.version) ==>
              var cl := s.nodes[c].client;
              var text := TextAt(p, s.log, cl.record.value.version);
              && (InSync(cl) <==> cl.local == Some(text))
              && (HasUnsyncedEdits(cl) <==> cl.local.Some? && cl.local.value != text)
  {
    hide Protocol.Run, SyncSafety.Start, StageOk, EntriesOk, AnswersOk, NodesOk, RetainedOk, Merge.MergeTexts;
    SyncSafety.StartKeeps(p, s0);
    RunKeeps(p, s0, steps);
    var s := Protocol.Run(p, s0, steps);
    if c in s.nodes {
      NodeIsOk(p, s, c);
    }
  }

  // ---- what is committed ----

  /** What a client's step asks the server to commit, if it asks for anything. */
  function Asks(p: Setting, step: Step, n: Node): Option<Request> {
    var cl := n.client;
    if step.SendUpload? && CanUpload(n) && Carries(p, step.rec, UploadRequest(cl)) then Some(UploadRequest(cl))
    else if step.SendMerge? && n.stage.Merging? && Knows(cl) && Carries(p, step.rec, n.stage.sent) then
      Some(n.stage.sent)
    else if step.SendKeepLocal? && n.stage == Idle && CopyText(cl).Some? && Carries(p, step.rec, KeepRequest(cl)) then
      Some(KeepRequest(cl))
    else None
  }

  /** The log after a step that asks for this. */
  ghost predicate Committing(p: Setting, s: State, asked: Option<Request>, log': Log) {
    if asked.Some? && asked.value.base == |s.log| then
      && |log'| == |s.log| + 1 && log'[..|s.log|] == s.log && Live(log', |log'|)
      && TextAt(p, log', |log'|) == asked.value.text && VectorAt(log', |log'|) == asked.value.vector
      && log'[|s.log|].record.version == |log'|
    else log' == s.log
  }

  /** Over every own step, a version is committed exactly when the client asks for one over the head's version, and it
      has the next number, the text and the vector that were sent; nothing else of the log changes. */
  lemma CommitsExactly(p: Setting, s: State, step: Step, c: ClientId)
    requires LogOk(p, s) && c in s.nodes && By(step, c)
    ensures Committing(p, s, Asks(p, step, s.nodes[c]), Do(p, s, step).log)
  {
    hide Do, Asks, Committing;
    OwnStep(p, s, step);
    match step
    case SendUpload(_, _) => UploadCommits(p, s, step);
    case SendMerge(_, _) => MergeCommits(p, s, step);
    case SendKeepLocal(_, _) => KeepCommits(p, s, step);
    case _ => OthersCommitNothing(p, s, step);
  }

  lemma UploadCommits(p: Setting, s: State, step: Step)
    requires LogOk(p, s) && step.SendUpload? && step.c in s.nodes
    ensures Committing(p, s, Asks(p, step, s.nodes[step.c]), DoClient(p, s, step, s.nodes[step.c]).log)
  {
    hide HeadOf, V.Bump, InSync, Merge.MergeTexts;
  }

  lemma MergeCommits(p: Setting, s: State, step: Step)
    requires LogOk(p, s) && step.SendMerge? && step.c in s.nodes
    ensures Committing(p, s, Asks(p, step, s.nodes[step.c]), DoClient(p, s, step, s.nodes[step.c]).log)
  {
    hide HeadOf, V.Bump, InSync, Merge.MergeTexts;
  }

  lemma KeepCommits(p: Setting, s: State, step: Step)
    requires LogOk(p, s) && step.SendKeepLocal? && step.c in s.nodes
    ensures Committing(p, s, Asks(p, step, s.nodes[step.c]), DoClient(p, s, step, s.nodes[step.c]).log)
  {
    hide HeadOf, V.Bump, InSync, Merge.MergeTexts;
  }

  lemma OthersCommitNothing(p: Setting, s: State, step: Step)
    requires !step.CommitOther? && !step.SaveAnswer? && !step.Elsewhere? && step.c in s.nodes
    requires !step.SendUpload? && !step.SendMerge? && !step.SendKeepLocal?
    ensures Committing(p, s, Asks(p, step, s.nodes[step.c]), DoClient(p, s, step, s.nodes[step.c]).log)
  {
    hide HeadOf, SavedAnswer, CopyText, V.Bump, InSync, Carries, MergeFetched, AfterApply, AfterKeepRemote,
         Merge.MergeTexts;
  }

  // ---- what the engine's calls send, record, and report ----

  /** An upload carries the local text over the recorded version, as a new file exactly when none is recorded, and
      counts one more of this device than the record. */
  lemma UploadRequestMeans(c: Client, d: string)
    requires c.local.Some?
    ensures var sent := UploadRequest(c);
            && Some(sent.text) == c.local
            && (Knows(c) ==> !sent.create && sent.base == c.record.value.version)
            && (sent.create <==> c.record.None? || c.record.value.version == 0)
            && (sent.create ==> sent.base == 0)
            && V.Get(sent.vector, d)
               == (if c.record.Some? then V.Get(c.record.value.vector, d) else 0) + (if d == c.device then 1 else 0)
  {
  }

  /** Whether a merge of the local file with the fetched head is sent, and what. */
  function MergeSent(c: Client, put: PutReply, fetched: HeadReply, disk: Disk): Option<Text> {
    if put.Stale? && fetched.Head? && disk.writable then
      var m := Merge.MergeTexts(c.shadow, LocalText(c), fetched.text);
      if m.clean then Some(m.merged) else None
    else None
  }

  /** The calls that upload: nothing is sent for a file that cannot be read, is too large, or is in sync. Otherwise
      the local text is sent, and after a refusal a clean merge over the version and vector that it names. The record is
      the text, version and vector of whichever was accepted, and else stays. It counts as done exactly when the file is
      in sync, accepted, or dealt with as a conflict. */
  lemma UploadOutcome(c: Client, limit: nat, put: PutReply, fetched: HeadReply, disk: Disk, put2: PutReply)
    ensures var o := AfterUploadFile(c, limit, put, fetched, disk, put2);
            var readable := c.local.Some? && |c.local.value| <= limit;
            if !readable || InSync(c) then o.client == c && o.sent == [] && (o.ok <==> readable)
            else
              var sent, merge := UploadRequest(c), MergeSent(c, put, fetched, disk);
              && o.sent == [sent] + (if merge.Some? then
                                       [Put(false, put.current, merge.value, V.Bump(put.vector, c.device))] else [])
              && o.client.record
                 == (if put.Accepted? then Agreed(put.version, sent.text, false, sent.vector)
                     else if merge.Some? && put2.Accepted? then
                       Agreed(put2.version, merge.value, WasDeleted(c), V.Bump(put.vector, c.device))
                     else c.record)
              && (o.ok <==> put.Accepted?
                            || (&& put.Stale? && fetched.Head?
                                && (Merge.MergeTexts(c.shadow, LocalText(c), fetched.text).clean ==> disk.writable)))
              && o.client.conflict
                 == (if o.ok && !put.Accepted? && !(merge.Some? && put2.Accepted?) then
                       Some(SyncClient.Conflict.Conflict(put.current, FromUpload)) else c.conflict)
  {
    hide Merge.MergeTexts, V.Bump;
  }

  /** Applying a head counts as done exactly when it could be read and was ignored, known, a tombstone, met by own
      edits, or written; only a written head or a tombstone changes the record. */
  lemma ApplyOutcome(c: Client, head: HeadReply, ignored: bool, disk: Disk)
    ensures var (after, ok) := AfterApply(c, head, ignored, disk);
            var read := !head.Unreadable? && !head.Unreachable?;
            var newer := read && !ignored && !(c.record.Some? && c.record.value.version >= head.version);
            && (ok <==> read && (!newer || head.Tombstone? || (head.Head? && (HasUnsyncedEdits(c) || disk.writable))))
            && after.record
               == (if newer && head.Head? && disk.writable && !HasUnsyncedEdits(c) then
                     Agreed(head.version, head.text, false, head.vector)
                   else if newer && head.Tombstone? && c.record.Some? then
                     Some(c.record.value.(deleted := true, version := head.version))
                   else c.record)
            && (!newer ==> after == c)
  {
  }

  /** Resolving counts as done exactly when the kept copy was accepted or the head written, and then the conflict is
      closed; else it stays open, and so does the record. */
  lemma ResolveOutcome(c: Client, strategy: Strategy, disk: Disk, put: PutReply, fetched: HeadReply)
    ensures var o := AfterResolve(c, strategy, disk, put, fetched);
            && (o.ok <==>
                 && c.conflict.Some?
                 && (|| (strategy.KeepLocal? && disk.readable && CopyText(c).Some? && put.Accepted?)
                     || ((strategy.KeepRemote? || strategy.KeepBoth?) && fetched.Head? && disk.writable)))
            && o.client.conflict == (if o.ok then None else c.conflict)
            && (!o.ok || c.record.None? ==> o.client.record == c.record && o.client.shadow == c.shadow)
            && (o.ok && c.record.Some? ==>
                  var r := c.record.value;
                  o.client.record
                  == match strategy
                     case KeepLocal => Agreed(put.version, CopyText(c).value, r.deleted, r.vector)
                     case KeepRemote => Agreed(fetched.version, fetched.text, r.deleted, fetched.vector)
                     case _ => Agreed(fetched.version, fetched.text, r.deleted, r.vector))
            && o.sent == (if c.conflict.Some? && strategy.KeepLocal? && disk.readable && CopyText(c).Some? then
                            [Put(false, c.conflict.value.remoteVersion, CopyText(c).value,
                                 V.Bump(RecordedVector(c), c.device))]
                          else [])
  {
    hide V.Bump;
  }
}
