/** What holds in every reachable state of the sync protocol. */
module ProtocolLaws {
  import opened Basics
  import opened Store
  import opened SyncClient
  import opened Protocol
  import Merge
  import V = VersionVectors

  type Log = seq<Entry>

  /** The plaintext of a committed version. */
  function TextAt(p: Setting, log: Log, version: int): Text
    requires 1 <= version <= |log|
  {
    TextOf(p, log[version - 1].record)
  }

  /** The version vector of a committed version. */
  function VectorAt(log: Log, version: int): V.Vector
    requires 1 <= version <= |log|
  {
    log[version - 1].record.vector
  }

  predicate Live(log: Log, version: int) {
    1 <= version <= |log| && !log[version - 1].record.deleted
  }

  /** The log is the file's history from version 1 to the head record. */
  ghost predicate LogOk(p: Setting, s: State) {
    && p.key in s.store.files && |s.log| >= 1
    && s.store.files[p.key] == s.log[|s.log| - 1].record
    && (forall i :: 0 <= i < |s.log| ==> s.log[i].record.version == i + 1 && s.log[i].record.key == p.key)
  }

  /** What the server still retains of the file agrees with the log. */
  ghost predicate RetainedOk(p: Setting, s: State) {
    forall v <- History(s.store, p.key) ::
      1 <= v.version <= |s.log| && v == VersionOf(s.log[v.version - 1].record)
  }

  /** `base` is the plaintext of the live version `w`, which is `version` itself if that is live. */
  ghost predicate BaseFrom(p: Setting, log: Log, base: Text, version: int, w: int) {
    && 1 <= w <= version <= |log| && Live(log, w) && base == TextAt(p, log, w)
    && (Live(log, version) ==> w == version)
  }

  /** A base is right for a recorded version: it is the plaintext of a live version no later than that, and
      of that very version if it is live. */
  ghost predicate BaseOk(p: Setting, log: Log, base: Text, version: int) {
    exists w :: BaseFrom(p, log, base, version, w)
  }

  /** A base is the plaintext of some live version. */
  ghost predicate BaseKnown(p: Setting, log: Log, base: Text) {
    exists w :: 1 <= w <= |log| && Live(log, w) && base == TextAt(p, log, w)
  }

  /** The shadow is right for the recorded version, if there is one, and is the recorded text, unless no live
      version was ever agreed on; the version is live unless the record is marked deleted. */
  ghost predicate RecordOk(p: Setting, log: Log, c: Client) {
    && BaseKnown(p, log, c.shadow)
    && (c.record.Some? ==>
          var r := c.record.value;
          && 0 <= r.version <= |log|
          && (r.version > 0 ==> BaseOk(p, log, c.shadow, r.version))
          && (r.version > 0 && !r.deleted ==> Live(log, r.version))
          && r.localText == r.remoteText
          && (if r.localText.Some? then r.localText.value == c.shadow else r.version == 0 || !Live(log, r.version))
          && (r.deleted ==> exists e <- log :: e.record.deleted))
  }

  ghost predicate StageOk(p: Setting, log: Log, c: Client, st: Stage) {
    match st
    case Idle => true
    case Refused => true
    case Told(current, vector) => 1 <= current <= |log| && vector == VectorAt(log, current)
    case Merging(sent, fetched, local) =>
      && 1 <= sent.base <= fetched && Live(log, fetched)
      && sent.vector == V.Bump(VectorAt(log, sent.base), c.device)
      && Merge.MergeTexts(c.shadow, local, TextAt(p, log, fetched)) == Merge.MergeResult(true, sent.text, [])
    case Answered(_, sent, version, replayed) =>
      && Live(log, version) && TextAt(p, log, version) == sent.text
      && (!replayed ==> VectorAt(log, version) == sent.vector)
  }

  ghost predicate NodeOk(p: Setting, log: Log, n: Node) {
    RecordOk(p, log, n.client) && StageOk(p, log, n.client, n.stage)
  }

  /** A plain upload's vector is the one its client had recorded, bumped. An auto-merged version is the merge of
      its base, the local text and exactly the version it replaced; the base is right for the version the client
      had recorded, and the vector is the replaced one, bumped. */
  ghost predicate EntryOk(p: Setting, log: Log, i: nat)
    requires i < |log|
  {
    match log[i].origin
    case Direct(known, device) => i > 0 && Live(log, i + 1) && VectorAt(log, i + 1) == V.Bump(known, device)
    case AutoMerge(recorded, base, local, device) =>
      && Live(log, i) && Live(log, i + 1) && recorded <= i
      && Merge.MergeTexts(base, local, TextAt(p, log, i)) == Merge.MergeResult(true, TextAt(p, log, i + 1), [])
      && BaseOk(p, log, base, recorded)
      && VectorAt(log, i + 1) == V.Bump(VectorAt(log, i), device)
    case Other => true
  }

  ghost predicate EntriesOk(p: Setting, log: Log) {
    forall i: nat :: i < |log| ==> EntryOk(p, log, i)
  }

  /** A saved answer to an upload is the version that upload committed. */
  ghost predicate AnswerOk(p: Setting, log: Log, base: int, text: Text, f: FileRecord) {
    base >= 1 && Live(log, base + 1) && f == log[base].record && TextOf(p, f) == text
  }

  ghost predicate AnswersOk(p: Setting, s: State) {
    forall b: int, t: Text ::
      SavedAnswer(p, s, b, t).Some? ==> AnswerOk(p, s.log, b, t, SavedAnswer(p, s, b, t).value)
  }

  ghost predicate NodesOk(p: Setting, s: State) {
    forall c <- s.nodes :: NodeOk(p, s.log, s.nodes[c])
  }

  ghost predicate Inv(p: Setting, s: State) {
    LogOk(p, s) && RetainedOk(p, s) && EntriesOk(p, s.log) && AnswersOk(p, s) && NodesOk(p, s)
  }

  // ---- a growing log ----

  lemma KnownLater(p: Setting, log: Log, log': Log, base: Text)
    requires BaseKnown(p, log, base) && log <= log'
    ensures BaseKnown(p, log', base)
  {
    var w :| 1 <= w <= |log| && Live(log, w) && base == TextAt(p, log, w);
    assert Live(log', w) && base == TextAt(p, log', w);
  }

  lemma BaseLater(p: Setting, log: Log, log': Log, base: Text, version: int)
    requires BaseOk(p, log, base, version) && log <= log'
    ensures BaseOk(p, log', base, version)
  {
    var w :| BaseFrom(p, log, base, version, w);
    assert BaseFrom(p, log', base, version, w);
  }

  /** The text of a live version is the right base for it. */
  lemma BaseOfLive(p: Setting, log: Log, base: Text, version: int)
    requires Live(log, version) && TextAt(p, log, version) == base
    ensures BaseOk(p, log, base, version) && BaseKnown(p, log, base)
  {
    assert BaseFrom(p, log, base, version, version);
  }

  /** Any base is right for a tombstone that is the last version. */
  lemma BaseOfDead(p: Setting, log: Log, base: Text)
    requires BaseKnown(p, log, base) && log != [] && !Live(log, |log|)
    ensures BaseOk(p, log, base, |log|)
  {
    var w :| 1 <= w <= |log| && Live(log, w) && base == TextAt(p, log, w);
    assert BaseFrom(p, log, base, |log|, w);
  }

  lemma NodeOkLater(p: Setting, log: Log, log': Log, n: Node)
    requires NodeOk(p, log, n) && log <= log'
    ensures NodeOk(p, log', n)
  {
    hide Merge.MergeTexts, BaseOk, BaseKnown;
    KnownLater(p, log, log', n.client.shadow);
    if n.client.record.Some? && n.client.record.value.version > 0 {
      BaseLater(p, log, log', n.client.shadow, n.client.record.value.version);
    }
    assert forall i :: 0 <= i < |log| ==> log'[i] == log[i];
    assert forall e <- log :: e in log';
  }

  lemma EntriesOkLater(p: Setting, log: Log, e: Entry)
    requires EntriesOk(p, log) && EntryOk(p, log + [e], |log|)
    ensures EntriesOk(p, log + [e])
  {
    hide Merge.MergeTexts, BaseOk;
    var log' := log + [e];
    forall i: nat | i < |log'|
      ensures EntryOk(p, log', i)
    {
      if i < |log| {
        assert log'[i] == log[i] && EntryOk(p, log, i);
        assert i > 0 ==> log'[i - 1] == log[i - 1];
        if log[i].origin.AutoMerge? {
          BaseLater(p, log, log', log[i].origin.base, log[i].origin.recorded);
        }
      }
    }
  }

  /** Answers stay right while the log grows and the saved answers do not change. */
  lemma AnswersLater(p: Setting, s: State, s': State)
    requires AnswersOk(p, s) && s.log <= s'.log && s'.store.idempotent == s.store.idempotent
    ensures AnswersOk(p, s')
  {
    forall b: int, t: Text | SavedAnswer(p, s', b, t).Some?
      ensures AnswerOk(p, s'.log, b, t, SavedAnswer(p, s', b, t).value)
    {
      assert SavedAnswer(p, s, b, t) == SavedAnswer(p, s', b, t);
      assert AnswerOk(p, s.log, b, t, SavedAnswer(p, s, b, t).value);
      assert s'.log[b] == s.log[b];
    }
  }

  /** A committed write over the head extends everything by one version. */
  lemma CommitKeeps(p: Setting, s: State, f: FileRecord, origin: Origin, nodes: map<ClientId, Node>)
    requires Inv(p, s) && f.key == p.key && f.version == |s.log| + 1
    requires EntryOk(p, s.log + [Entry(f, origin)], |s.log|)
    requires forall c <- nodes :: NodeOk(p, s.log + [Entry(f, origin)], nodes[c])
    ensures Inv(p, State(Commit(s.store, f), nodes, s.log + [Entry(f, origin)]))
  {
    hide NodeOk, EntryOk, VersionOf, ChangeOf, AnswersOk;
    var s' := State(Commit(s.store, f), nodes, s.log + [Entry(f, origin)]);
    EntriesOkLater(p, s.log, Entry(f, origin));
    VersionNumber(f);
    AnswersLater(p, s, s');
    assert RetainedOk(p, s');
  }

  /** A step that changes only the clients' side, or the store outside this file's head and answers. */
  lemma OutsideKeeps(p: Setting, s: State, s': State)
    requires Inv(p, s) && s'.log == s.log && NodesOk(p, s')
    requires p.key in s'.store.files && s'.store.files[p.key] == s.store.files[p.key]
    requires forall v <- History(s'.store, p.key) :: v in History(s.store, p.key)
    requires AnswersOk(p, s')
    ensures Inv(p, s')
  {
    hide NodesOk, EntriesOk, AnswersOk, VersionOf;
  }

  lemma SetNodeKeeps(p: Setting, s: State, c: ClientId, n: Node)
    requires Inv(p, s) && NodeOk(p, s.log, n)
    ensures Inv(p, SetNode(s, c, n))
  {
    hide NodeOk, EntriesOk, RetainedOk, AnswersOk;
    var s' := SetNode(s, c, n);
    AnswersLater(p, s, s');
    assert NodesOk(p, s');
    OutsideKeeps(p, s, s');
  }

  /** A client's write keeps the invariant whichever way it goes. */
  lemma WriteKeeps(p: Setting, s: State, c: ClientId, rec: FileRecord, base: int, origin: Origin, yes: Node, no: Node)
    requires Inv(p, s) && rec.key == p.key && !rec.deleted && NodeOk(p, s.log, no)
    requires base == |s.log| ==>
               var f := rec.(version := base + 1, changeSeq := s.store.nextSeq);
               && EntryOk(p, s.log + [Entry(f, origin)], base)
               && NodeOk(p, s.log + [Entry(f, origin)], yes)
    ensures Inv(p, Write(s, c, rec, base, origin, yes, no))
  {
    hide NodeOk, EntryOk, EntriesOk, AnswersOk, RetainedOk, Commit;
    HeadVersion(p, s);
    if base == |s.log| {
      var f := rec.(version := base + 1, changeSeq := s.store.nextSeq);
      var log' := s.log + [Entry(f, origin)];
      var nodes' := s.nodes[c := yes];
      forall k <- nodes'
        ensures NodeOk(p, log', nodes'[k])
      {
        if k != c {
          NodeOkLater(p, s.log, log', s.nodes[k]);
        }
      }
      CommitKeeps(p, s, f, origin, nodes');
    } else {
      SetNodeKeeps(p, s, c, no);
    }
  }

  lemma HeadVersion(p: Setting, s: State)
    requires LogOk(p, s)
    ensures p.key in s.store.files && s.store.files[p.key].version == |s.log|
  {
  }

  // ---- the steps ----

  /** The head as a client reads it is the last log entry. */
  lemma HeadIsLast(p: Setting, s: State)
    requires LogOk(p, s)
    ensures HeadOf(p, s).Head? ==>
              HeadOf(p, s).version == |s.log| && Live(s.log, |s.log|) && HeadOf(p, s).text == TextAt(p, s.log, |s.log|)
    ensures HeadOf(p, s).Tombstone? ==>
              HeadOf(p, s).version == |s.log| && s.log[|s.log| - 1].record.deleted && s.log[|s.log| - 1] in s.log
    ensures HeadOf(p, s).Head? || HeadOf(p, s).Tombstone?
  {
  }

  /** An accepted upload is the plaintext of the version it commits. */
  lemma DirectEntry(p: Setting, s: State, cl: Client, from: Client, rec: FileRecord, flow: Flow, sent: Request)
    requires LogOk(p, s) && RecordOk(p, s.log, cl) && Carries(p, rec, sent) && sent.base == |s.log|
    requires sent.vector == V.Bump(RecordedVector(from), from.device)
    ensures var log' := s.log + [Entry(rec.(version := sent.base + 1, changeSeq := s.store.nextSeq), DirectFrom(from))];
            && EntryOk(p, log', sent.base)
            && NodeOk(p, log', Node(cl, Answered(flow, sent, sent.base + 1, false)))
  {
    hide Merge.MergeTexts, V.Bump;
    var f := rec.(version := sent.base + 1, changeSeq := s.store.nextSeq);
    NodeOkLater(p, s.log, s.log + [Entry(f, DirectFrom(from))], Node(cl, Idle));
  }

  /** A plain upload keeps the invariant whether it is accepted or not. */
  lemma DirectKeeps(p: Setting, s: State, c: ClientId, cl: Client, from: Client, rec: FileRecord, flow: Flow,
                    sent: Request, no: Node)
    requires Inv(p, s) && RecordOk(p, s.log, cl) && NodeOk(p, s.log, no) && Carries(p, rec, sent)
    requires sent.vector == V.Bump(RecordedVector(from), from.device)
    ensures var yes := Node(cl, Answered(flow, sent, sent.base + 1, false));
            Inv(p, Write(s, c, rec, sent.base, DirectFrom(from), yes, no))
  {
    hide Inv, Write, NodeOk, RecordOk, EntriesOk, AnswersOk, RetainedOk, NodesOk, EntryOk, V.Bump, Merge.MergeTexts;
    InvParts(p, s);
    if sent.base == |s.log| {
      DirectEntry(p, s, cl, from, rec, flow, sent);
    }
    WriteKeeps(p, s, c, rec, sent.base, DirectFrom(from), Node(cl, Answered(flow, sent, sent.base + 1, false)), no);
  }

  lemma UploadKeeps(p: Setting, s: State, c: ClientId, rec: FileRecord)
    requires Inv(p, s) && c in s.nodes
    ensures Inv(p, DoClient(p, s, SendUpload(c, rec), s.nodes[c]))
  {
    hide Inv, Write, V.Bump, RecordOk, Merge.MergeTexts;
    var n := s.nodes[c];
    NodeIsOk(p, s, c);
    if CanUpload(n) && Carries(p, rec, UploadRequest(n.client)) {
      DirectKeeps(p, s, c, n.client, n.client, rec, Upload, UploadRequest(n.client), n.(stage := Refused));
    }
  }

  lemma NodeIsOk(p: Setting, s: State, c: ClientId)
    requires Inv(p, s) && c in s.nodes
    ensures NodeOk(p, s.log, s.nodes[c])
  {
  }

  /** A saved answer names a version that carries the text asked about. */
  lemma SavedIsLive(p: Setting, s: State, base: int, text: Text)
    requires LogOk(p, s) && AnswersOk(p, s) && SavedAnswer(p, s, base, text).Some?
    ensures var v := SavedAnswer(p, s, base, text).value.version;
            v == base + 1 && Live(s.log, v) && TextAt(p, s.log, v) == text
  {
    assert AnswerOk(p, s.log, base, text, SavedAnswer(p, s, base, text).value);
  }

  lemma ReplayKeeps(p: Setting, s: State, c: ClientId, n: Node, flow: Flow, sent: Request)
    requires Inv(p, s) && RecordOk(p, s.log, n.client)
    ensures Inv(p, Replay(p, s, c, n, flow, sent))
  {
    hide Inv, RecordOk, SavedAnswer, Merge.MergeTexts;
    InvParts(p, s);
    var saved := SavedAnswer(p, s, sent.base, sent.text);
    if saved.Some? {
      SavedIsLive(p, s, sent.base, sent.text);
      SetNodeKeeps(p, s, c, n.(stage := Answered(flow, sent, saved.value.version, true)));
    }
  }

  lemma InvParts(p: Setting, s: State)
    requires Inv(p, s)
    ensures LogOk(p, s) && RetainedOk(p, s) && EntriesOk(p, s.log) && AnswersOk(p, s) && NodesOk(p, s)
  {
  }

  /** The three ways to be answered from memory. */
  lemma ReplaysKeep(p: Setting, s: State, step: Step)
    requires Inv(p, s) && (step.ReplayUpload? || step.ReplayMerge? || step.ReplayKeepLocal?) && step.c in s.nodes
    ensures Inv(p, DoClient(p, s, step, s.nodes[step.c]))
  {
    hide Inv, RecordOk, Replay, UploadRequest, KeepRequest, Merge.MergeTexts;
    var c, n := step.c, s.nodes[step.c];
    NodeIsOk(p, s, c);
    match step
    case ReplayUpload(_) =>
      if CanUpload(n) {
        ReplayKeeps(p, s, c, n, Upload, UploadRequest(n.client));
      }
    case ReplayMerge(_) =>
      if n.stage.Merging? {
        ReplayKeeps(p, s, c, n, ConflictMerge(n.stage.local), n.stage.sent);
      }
    case ReplayKeepLocal(_) =>
      if n.stage == Idle && CopyText(n.client).Some? {
        var restored := n.client.(local := CopyText(n.client));
        SameRecord(p, s.log, n.client, restored);
        ReplayKeeps(p, s, c, n.(client := restored), Resolve, KeepRequest(n.client));
      }
  }

  lemma SameRecord(p: Setting, log: Log, c: Client, c': Client)
    requires RecordOk(p, log, c) && c'.record == c.record && c'.shadow == c.shadow
    ensures RecordOk(p, log, c')
  {
  }

  lemma ReadRefusalKeeps(p: Setting, s: State, c: ClientId)
    requires Inv(p, s) && c in s.nodes
    ensures Inv(p, DoClient(p, s, ReadRefusal(c), s.nodes[c]))
  {
    hide Inv, RecordOk, EntriesOk, AnswersOk, RetainedOk, NodesOk, Merge.MergeTexts;
    InvParts(p, s);
    NodeIsOk(p, s, c);
    var n := s.nodes[c];
    if n.stage == Refused {
      SetNodeKeeps(p, s, c, n.(stage := Told(s.store.files[p.key].version, s.store.files[p.key].vector)));
    }
  }

  lemma FetchKeeps(p: Setting, s: State, c: ClientId)
    requires Inv(p, s) && c in s.nodes
    ensures Inv(p, DoClient(p, s, FetchAndMerge(c), s.nodes[c]))
  {
    hide Inv, RecordOk, EntriesOk, AnswersOk, RetainedOk, NodesOk, HeadOf, V.Bump, Merge.MergeTexts;
    InvParts(p, s);
    HeadIsLast(p, s);
    NodeIsOk(p, s, c);
    var n := s.nodes[c];
    var head := HeadOf(p, s);
    if n.stage.Told? && head.Head? {
      var (cl', merged) := MergeFetched(n.client, n.stage.current, head.text, FINE);
      Merge.CleanHasNoHunks(n.client.shadow, LocalText(n.client), head.text);
      SameRecord(p, s.log, n.client, cl');
      if merged.None? {
        SetNodeKeeps(p, s, c, Node(cl', Idle));
      } else {
        var sent := MergeRequest(n.client, n.stage.current, n.stage.vector, merged.value);
        SetNodeKeeps(p, s, c, Node(cl', Merging(sent, head.version, LocalText(n.client))));
      }
    }
  }

  /** An accepted merge upload found the head where the refusal had named it, so what was fetched in
      between is what is replaced. */
  lemma MergeEntryIsOk(p: Setting, s: State, n: Node, rec: FileRecord)
    requires LogOk(p, s) && NodeOk(p, s.log, n) && n.stage.Merging? && Knows(n.client)
    requires n.stage.sent.base == |s.log| && Carries(p, rec, n.stage.sent)
    ensures var cl := n.client;
            var o := AutoMerge(cl.record.value.version, cl.shadow, n.stage.local, cl.device);
            var f := rec.(version := |s.log| + 1, changeSeq := s.store.nextSeq);
            EntryOk(p, s.log + [Entry(f, o)], |s.log|)
  {
    hide Merge.MergeTexts, V.Bump, BaseOk;
    var cl := n.client;
    var o := AutoMerge(cl.record.value.version, cl.shadow, n.stage.local, cl.device);
    var f := rec.(version := |s.log| + 1, changeSeq := s.store.nextSeq);
    var log' := s.log + [Entry(f, o)];
    BaseLater(p, s.log, log', cl.shadow, cl.record.value.version);
    assert log'[|s.log| - 1] == s.log[|s.log| - 1];
  }

  lemma SendMergeKeeps(p: Setting, s: State, c: ClientId, rec: FileRecord)
    requires Inv(p, s) && c in s.nodes
    ensures Inv(p, DoClient(p, s, SendMerge(c, rec), s.nodes[c]))
  {
    hide Inv, Write, RecordOk, EntriesOk, AnswersOk, RetainedOk, NodesOk, EntryOk, Merge.MergeTexts;
    InvParts(p, s);
    NodeIsOk(p, s, c);
    var n := s.nodes[c];
    if n.stage.Merging? && Knows(n.client) && Carries(p, rec, n.stage.sent) {
      var cl, sent, local := n.client, n.stage.sent, n.stage.local;
      var o := AutoMerge(cl.record.value.version, cl.shadow, local, cl.device);
      var yes := n.(stage := Answered(ConflictMerge(local), sent, sent.base + 1, false));
      var no := Node(Preserve(cl, sent.base, FromUpload, local, FINE), Idle);
      SameRecord(p, s.log, cl, no.client);
      if sent.base == |s.log| {
        MergeEntryIsOk(p, s, n, rec);
        MergeAnswered(p, s, n, rec, o);
      }
      WriteKeeps(p, s, c, rec, sent.base, o, yes, no);
    }
  }

  lemma MergeAnswered(p: Setting, s: State, n: Node, rec: FileRecord, o: Origin)
    requires LogOk(p, s) && NodeOk(p, s.log, n) && n.stage.Merging?
    requires n.stage.sent.base == |s.log| && Carries(p, rec, n.stage.sent)
    ensures var sent := n.stage.sent;
            NodeOk(p, s.log + [Entry(rec.(version := sent.base + 1, changeSeq := s.store.nextSeq), o)],
                   n.(stage := Answered(ConflictMerge(n.stage.local), sent, sent.base + 1, false)))
  {
    hide RecordOk, Merge.MergeTexts, V.Bump;
    NodeOkLater(p, s.log, s.log + [Entry(rec.(version := n.stage.sent.base + 1, changeSeq := s.store.nextSeq), o)], n);
  }

  lemma KeepLocalKeeps(p: Setting, s: State, c: ClientId, rec: FileRecord)
    requires Inv(p, s) && c in s.nodes
    ensures Inv(p, DoClient(p, s, SendKeepLocal(c, rec), s.nodes[c]))
  {
    hide Inv, Write, V.Bump, CopyText, RecordOk, Merge.MergeTexts;
    var n := s.nodes[c];
    NodeIsOk(p, s, c);
    if n.stage == Idle && CopyText(n.client).Some? && Carries(p, rec, KeepRequest(n.client)) {
      var restored := n.client.(local := CopyText(n.client));
      SameRecord(p, s.log, n.client, restored);
      DirectKeeps(p, s, c, restored, n.client, rec, Resolve, KeepRequest(n.client), Node(restored, Idle));
    }
  }

  lemma ReceiveKeeps(p: Setting, s: State, c: ClientId)
    requires Inv(p, s) && c in s.nodes
    ensures Inv(p, DoClient(p, s, Receive(c), s.nodes[c]))
  {
    hide Inv, BaseOk, Merge.MergeTexts;
    NodeIsOk(p, s, c);
    var n := s.nodes[c];
    if n.stage.Answered? {
      BaseOfLive(p, s.log, n.stage.sent.text, n.stage.version);
      SetNodeKeeps(p, s, c, Node(Received(n.client, n.stage), Idle));
    }
  }

  /** The steps that only touch the client. */
  lemma LocalStepKeeps(p: Setting, s: State, step: Step)
    requires Inv(p, s) && (step.Edit? || step.Drop? || step.Forget? || step.Open?) && step.c in s.nodes
    ensures Inv(p, DoClient(p, s, step, s.nodes[step.c]))
  {
    hide Inv, Merge.MergeTexts;
    var c, n := step.c, s.nodes[step.c];
    NodeIsOk(p, s, c);
    match step
    case Edit(_, text) => SetNodeKeeps(p, s, c, n.(client := n.client.(local := text)));
    case Drop(_) => SetNodeKeeps(p, s, c, Node(Dropped(n.client, n.stage), Idle));
    case Forget(_) =>
      if n.stage == Idle {
        SetNodeKeeps(p, s, c, n.(client := n.client.(record := None)));
      }
    case Open(_) => SetNodeKeeps(p, s, c, n.(client := AfterOpen(n.client)));
  }

  lemma ReadHeadKeeps(p: Setting, s: State, step: Step)
    requires Inv(p, s) && (step.TakeRemote? || step.ApplyRemote?) && step.c in s.nodes
    ensures Inv(p, DoClient(p, s, step, s.nodes[step.c]))
  {
    hide Inv, BaseOk, BaseKnown, EntriesOk, AnswersOk, RetainedOk, NodesOk, HeadOf, CopyText, Merge.MergeTexts;
    InvParts(p, s);
    HeadIsLast(p, s);
    var c, n, head := step.c, s.nodes[step.c], HeadOf(p, s);
    NodeIsOk(p, s, c);
    if head.Head? {
      BaseOfLive(p, s.log, head.text, head.version);
    } else {
      BaseOfDead(p, s.log, n.client.shadow);
    }
    if n.stage == Idle {
      match step
      case TakeRemote(_, aside) =>
        if n.client.conflict.Some? {
          SetNodeKeeps(p, s, c, n.(client := AfterKeepRemote(n.client, aside, FINE, head).client));
        }
      case ApplyRemote(_) => SetNodeKeeps(p, s, c, n.(client := AfterApply(n.client, head, false, FINE).0));
    }
  }

  /** A write by anyone else: a delete, a restore, a client that is not followed here. */
  lemma CommitOtherKeeps(p: Setting, s: State, rec: FileRecord, baseVersion: int)
    requires Inv(p, s)
    ensures Inv(p, Do(p, s, CommitOther(rec, baseVersion)))
  {
    hide NodeOk, EntryOk, EntriesOk, AnswersOk, RetainedOk, Commit;
    HeadVersion(p, s);
    if rec.key == p.key && baseVersion == |s.log| {
      var f := rec.(version := |s.log| + 1, changeSeq := s.store.nextSeq);
      var log' := s.log + [Entry(f, Other)];
      OtherEntryOk(p, s.log, f);
      forall k <- s.nodes
        ensures NodeOk(p, log', s.nodes[k])
      {
        NodeOkLater(p, s.log, log', s.nodes[k]);
      }
      CommitKeeps(p, s, f, Other, s.nodes);
    }
  }

  lemma OtherEntryOk(p: Setting, log: Log, f: FileRecord)
    ensures EntryOk(p, log + [Entry(f, Other)], |log|)
  {
  }

  /** The server remembers its answer to an upload it accepted. */
  lemma SaveAnswerKeeps(p: Setting, s: State, version: int)
    requires Inv(p, s) && KeysDistinct(p)
    ensures Inv(p, Do(p, s, SaveAnswer(version)))
  {
    hide NodeOk, EntriesOk, RetainedOk, AnswersOk, EntryOk;
    if 2 <= version <= |s.log| && !s.log[version - 1].record.deleted {
      var s' := Do(p, s, SaveAnswer(version));
      SaveAnswerAnswers(p, s, version);
      OutsideKeeps(p, s, s');
    }
  }

  lemma SaveAnswerAnswers(p: Setting, s: State, version: int)
    requires LogOk(p, s) && AnswersOk(p, s) && KeysDistinct(p)
    requires 2 <= version <= |s.log| && !s.log[version - 1].record.deleted
    ensures AnswersOk(p, Do(p, s, SaveAnswer(version)))
  {
    hide AnswerOk, LogOk, TextOf;
    var s' := Do(p, s, SaveAnswer(version));
    var f := s.log[version - 1].record;
    VersionAnswers(p, s, version);
    forall b: int, t: Text | SavedAnswer(p, s', b, t).Some?
      ensures AnswerOk(p, s.log, b, t, SavedAnswer(p, s', b, t).value)
    {
      if p.idemKey(b, t) == p.idemKey(version - 1, TextOf(p, f)) {
        assert b == version - 1 && t == TextOf(p, f);
      } else {
        assert SavedAnswer(p, s', b, t) == SavedAnswer(p, s, b, t);
      }
    }
  }

  /** A live version answers the upload that committed it. */
  lemma VersionAnswers(p: Setting, s: State, version: int)
    requires 2 <= version <= |s.log| && !s.log[version - 1].record.deleted
    ensures AnswerOk(p, s.log, version - 1, TextOf(p, s.log[version - 1].record), s.log[version - 1].record)
  {
  }

  /** Writes to other files, retention pruning and other saved answers leave this file alone. */
  lemma ElsewhereKeeps(p: Setting, s: State, op: Op)
    requires Inv(p, s)
    ensures Inv(p, Do(p, s, Elsewhere(op)))
  {
    hide NodeOk, EntriesOk, RetainedOk, AnswersOk, Unreferenced, KeptKeys;
    if TouchesOthers(p, op) {
      var s' := Do(p, s, Elsewhere(op));
      ElsewhereHistory(p, s.store, op);
      ElsewhereAnswers(p, s, op);
      OutsideKeeps(p, s, s');
    }
  }

  lemma ElsewhereHistory(p: Setting, d: Data, op: Op)
    requires TouchesOthers(p, op) && p.key in d.files
    ensures p.key in Apply(d, op).files && Apply(d, op).files[p.key] == d.files[p.key]
    ensures forall v <- History(Apply(d, op), p.key) :: v in History(d, p.key)
  {
  }

  lemma ElsewhereAnswers(p: Setting, s: State, op: Op)
    requires TouchesOthers(p, op) && AnswersOk(p, s)
    ensures AnswersOk(p, Do(p, s, Elsewhere(op)))
  {
    hide AnswerOk, Commit, Unreferenced, KeptKeys;
    var s' := Do(p, s, Elsewhere(op));
    forall b: int, t: Text | SavedAnswer(p, s', b, t).Some?
      ensures AnswerOk(p, s'.log, b, t, SavedAnswer(p, s', b, t).value)
    {
      SameAnswer(p, s.store, op, b, t);
      assert SavedAnswer(p, s', b, t) == SavedAnswer(p, s, b, t);
    }
  }

  lemma SameAnswer(p: Setting, d: Data, op: Op, b: int, t: Text)
    requires TouchesOthers(p, op)
    ensures var k := (p.key.account, p.idemKey(b, t));
            && (k in Apply(d, op).idempotent <==> k in d.idempotent)
            && (k in d.idempotent ==> Apply(d, op).idempotent[k] == d.idempotent[k])
  {
  }

  lemma DoKeeps(p: Setting, s: State, step: Step)
    requires Inv(p, s) && KeysDistinct(p)
    ensures Inv(p, Do(p, s, step))
  {
    hide Inv, KeysDistinct, DoClient, TouchesOthers;
    match step
    case CommitOther(rec, baseVersion) => CommitOtherKeeps(p, s, rec, baseVersion);
    case SaveAnswer(version) => SaveAnswerKeeps(p, s, version);
    case Elsewhere(op) => ElsewhereKeeps(p, s, op);
    case _ =>
      if step.c in s.nodes {
        DoClientKeeps(p, s, step);
      }
  }

  lemma DoClientKeeps(p: Setting, s: State, step: Step)
    requires !step.CommitOther? && !step.SaveAnswer? && !step.Elsewhere? && step.c in s.nodes
    requires Inv(p, s)
    ensures Inv(p, DoClient(p, s, step, s.nodes[step.c]))
  {
    hide Inv, DoClient;
    match step
    case Edit(_, _) => LocalStepKeeps(p, s, step);
    case SendUpload(c, rec) => UploadKeeps(p, s, c, rec);
    case ReplayUpload(_) => ReplaysKeep(p, s, step);
    case ReadRefusal(c) => ReadRefusalKeeps(p, s, c);
    case FetchAndMerge(c) => FetchKeeps(p, s, c);
    case SendMerge(c, rec) => SendMergeKeeps(p, s, c, rec);
    case ReplayMerge(_) => ReplaysKeep(p, s, step);
    case SendKeepLocal(c, rec) => KeepLocalKeeps(p, s, c, rec);
    case ReplayKeepLocal(_) => ReplaysKeep(p, s, step);
    case Receive(c) => ReceiveKeeps(p, s, c);
    case Drop(_) => LocalStepKeeps(p, s, step);
    case TakeRemote(_, _) => ReadHeadKeeps(p, s, step);
    case ApplyRemote(_) => ReadHeadKeeps(p, s, step);
    case Forget(_) => LocalStepKeeps(p, s, step);
    case Open(_) => LocalStepKeeps(p, s, step);
  }

  lemma {:induction false} RunKeeps(p: Setting, s: State, steps: seq<Step>)
    requires Inv(p, s) && KeysDistinct(p)
    ensures Inv(p, Protocol.Run(p, s, steps))
    decreases |steps|
  {
    hide Inv, KeysDistinct, Do;
    if steps != [] {
      DoKeeps(p, s, steps[0]);
      RunKeeps(p, Do(p, s, steps[0]), steps[1..]);
    }
  }
}
