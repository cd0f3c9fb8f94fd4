/** What the sync protocol guarantees over every run. */
module SyncSafety {
  import opened Basics
  import opened Store
  import opened SyncClient
  import opened Protocol
  import opened ProtocolLaws
  import Merge
  import Restore
  import V = VersionVectors

  /** Every client knows the file and is in step with the version it recorded; no upload has been answered yet. */
  ghost predicate Start(p: Setting, s: State) {
    && LogOk(p, s) && RetainedOk(p, s)
    && (forall e <- s.log :: e.origin == Other)
    && (forall b: int, t: Text :: SavedAnswer(p, s, b, t).None?)
    && (forall c <- s.nodes :: s.nodes[c].stage == Idle && Synced(p, s.log, s.nodes[c].client))
  }

  predicate Synced(p: Setting, log: Log, c: Client) {
    InStep(p, log, c) && !c.record.value.deleted
  }

  /** The recorded version is live, and its plaintext is the base and both recorded texts. */
  predicate InStep(p: Setting, log: Log, c: Client) {
    && c.record.Some? && Live(log, c.record.value.version)
    && c.shadow == TextAt(p, log, c.record.value.version)
    && c.record.value.localText == c.record.value.remoteText == Some(c.shadow)
  }

  predicate NobodyDeletes(log: Log) {
    forall e <- log :: !e.record.deleted
  }

  lemma StartKeeps(p: Setting, s: State)
    requires Start(p, s)
    ensures Inv(p, s)
  {
    hide Merge.MergeTexts, BaseOk;
    assert EntriesOk(p, s.log) by {
      forall i: nat | i < |s.log|
        ensures EntryOk(p, s.log, i)
      {
        assert s.log[i] in s.log;
      }
    }
    forall c <- s.nodes
      ensures NodeOk(p, s.log, s.nodes[c])
    {
      BaseOfLive(p, s.log, s.nodes[c].client.shadow, s.nodes[c].client.record.value.version);
    }
  }

  /** In every reachable state a client is in step with the version it recorded exactly when that version is
      live. Otherwise it recorded a tombstone, and its base is the plaintext of an earlier live version. What
      the server still retains of a version has that very plaintext. */
  lemma BaseIsRecordedVersion(p: Setting, s0: State, steps: seq<Step>, c: ClientId)
    requires Start(p, s0) && KeysDistinct(p)
    ensures var s := Protocol.Run(p, s0, steps);
            c in s.nodes && Knows(s.nodes[c].client) ==>
              var cl, v := s.nodes[c].client, s.nodes[c].client.record.value.version;
              && 1 <= v <= |s.log|
              && (InStep(p, s.log, cl) <==> Live(s.log, v))
              && (!Live(s.log, v) ==> exists w :: 1 <= w < v && Live(s.log, w) && cl.shadow == TextAt(p, s.log, w))
              && (Live(s.log, v) && GetVersion(s.store, p.key, v).Ok? ==>
                   p.plain(GetVersion(s.store, p.key, v).value.contentHash) == cl.shadow)
  {
    hide Protocol.Run, Start, StageOk, EntriesOk, AnswersOk, NodesOk, BaseKnown, Merge.MergeTexts;
    StartKeeps(p, s0);
    RunKeeps(p, s0, steps);
    var s := Protocol.Run(p, s0, steps);
    if c in s.nodes && Knows(s.nodes[c].client) {
      NodeIsOk(p, s, c);
      var v := s.nodes[c].client.record.value.version;
      var w :| BaseFrom(p, s.log, s.nodes[c].client.shadow, v, w);
      assert 1 <= w <= v;
      if GetVersion(s.store, p.key, v).Ok? {
        Restore.FoundVersion(History(s.store, p.key), v);
      }
    }
  }

  /** Every auto-merged version is the clean merge of the client's base, its text, and exactly the version
      it replaces, although the head is read only after the refusal. The base is the plaintext of the version
      that the client had recorded whenever that is live, else of an earlier live one. */
  lemma AutoMergeReplacesWhatItMerged(p: Setting, s0: State, steps: seq<Step>, n: int)
    requires Start(p, s0) && KeysDistinct(p)
    ensures var log := Protocol.Run(p, s0, steps).log;
            1 <= n < |log| && log[n].origin.AutoMerge? ==>
              var o := log[n].origin;
              && log[n].record.version == n + 1
              && Live(log, n) && Live(log, n + 1) && 1 <= o.recorded <= n
              && Merge.MergeTexts(o.base, o.local, TextAt(p, log, n))
                 == Merge.MergeResult(true, TextAt(p, log, n + 1), [])
              && (Live(log, o.recorded) ==> o.base == TextAt(p, log, o.recorded))
              && (!Live(log, o.recorded) ==>
                   exists w :: 1 <= w < o.recorded && Live(log, w) && o.base == TextAt(p, log, w))
  {
    hide Protocol.Run, Start, Merge.MergeTexts, NodesOk, AnswersOk, V.Bump;
    StartKeeps(p, s0);
    RunKeeps(p, s0, steps);
    var log := Protocol.Run(p, s0, steps).log;
    if 1 <= n < |log| && log[n].origin.AutoMerge? {
      assert EntryOk(p, log, n);
      var o := log[n].origin;
      var w :| BaseFrom(p, log, o.base, o.recorded, w);
      assert 1 <= w <= o.recorded;
    }
  }

  /** An auto-merged version's vector is that of the version it replaces with the merging device's counter
      raised, so it dominates that. */
  lemma AutoMergeMovesVectorOn(p: Setting, s0: State, steps: seq<Step>, n: int)
    requires Start(p, s0) && KeysDistinct(p)
    ensures var log := Protocol.Run(p, s0, steps).log;
            1 <= n < |log| && log[n].origin.AutoMerge? ==>
              && VectorAt(log, n + 1) == V.Bump(VectorAt(log, n), log[n].origin.device)
              && (V.NonNegative(VectorAt(log, n)) ==> V.DominatesOf(VectorAt(log, n + 1), VectorAt(log, n)))
  {
    hide Protocol.Run, Start, Merge.MergeTexts, NodesOk, AnswersOk, BaseOk, V.Bump, V.DominatesOf;
    StartKeeps(p, s0);
    RunKeeps(p, s0, steps);
    var log := Protocol.Run(p, s0, steps).log;
    if 1 <= n < |log| && log[n].origin.AutoMerge? {
      assert EntryOk(p, log, n);
      if V.NonNegative(VectorAt(log, n)) {
        V.BumpDominates(VectorAt(log, n), log[n].origin.device);
      }
    }
  }

  /** The vector of a plain upload or a kept copy is the one the client had recorded, bumped. It dominates that
      of the version it replaces exactly when the recorded one is at least that; or when the replaced version has
      seen one more of this device, and less of some other one. */
  lemma UploadMovesVectorOnWhen(p: Setting, s0: State, steps: seq<Step>, n: int)
    requires Start(p, s0) && KeysDistinct(p)
    ensures var log := Protocol.Run(p, s0, steps).log;
            0 <= n < |log| && log[n].origin.Direct? ==>
              var known, d := log[n].origin.known, log[n].origin.device;
              && n >= 1 && VectorAt(log, n + 1) == V.Bump(known, d)
              && (V.NonNegative(known) && V.NonNegative(VectorAt(log, n)) ==>
                    (V.DominatesOf(VectorAt(log, n + 1), VectorAt(log, n))
                     <==> V.AtLeast(known, VectorAt(log, n)) || V.OneBehind(known, VectorAt(log, n), d)))
  {
    hide Protocol.Run, Start, Merge.MergeTexts, NodesOk, AnswersOk, BaseOk, V.Bump, V.DominatesOf,
         V.AtLeast, V.OneBehind;
    StartKeeps(p, s0);
    RunKeeps(p, s0, steps);
    var log := Protocol.Run(p, s0, steps).log;
    if 0 <= n < |log| && log[n].origin.Direct? {
      assert EntryOk(p, log, n);
      if V.NonNegative(log[n].origin.known) && V.NonNegative(VectorAt(log, n)) {
        V.BumpedDominatesWhen(log[n].origin.known, VectorAt(log, n), log[n].origin.device);
      }
    }
  }

  /** Over every run, an upload answered from memory is answered with a version that carries its very text. */
  lemma ReplayIsTruthful(p: Setting, s0: State, steps: seq<Step>, base: int, text: Text)
    requires Start(p, s0) && KeysDistinct(p)
    ensures var s := Protocol.Run(p, s0, steps);
            SavedAnswer(p, s, base, text).Some? ==>
              var v := SavedAnswer(p, s, base, text).value.version;
              v == base + 1 && Live(s.log, v) && TextAt(p, s.log, v) == text
  {
    hide Protocol.Run, Start, SavedAnswer, EntriesOk, NodesOk, Merge.MergeTexts;
    StartKeeps(p, s0);
    RunKeeps(p, s0, steps);
    var s := Protocol.Run(p, s0, steps);
    if SavedAnswer(p, s, base, text).Some? {
      SavedIsLive(p, s, base, text);
    }
  }

  /** On a file nobody deletes, every client stays in step: its record is live and its base is right. */
  lemma NobodyFallsOut(p: Setting, s0: State, steps: seq<Step>, c: ClientId)
    requires Start(p, s0) && KeysDistinct(p)
    ensures var s := Protocol.Run(p, s0, steps);
            NobodyDeletes(s.log) && c in s.nodes && Knows(s.nodes[c].client) ==>
              Synced(p, s.log, s.nodes[c].client)
  {
    hide Protocol.Run, Start, Merge.MergeTexts;
    StartKeeps(p, s0);
    RunKeeps(p, s0, steps);
    var s := Protocol.Run(p, s0, steps);
    if c in s.nodes {
      NodeIsOk(p, s, c);
    }
  }

  /** The protocol's stages of a refused upload add up to the engine's conflict handling. */
  lemma ConflictInStages(cl: Client, current: int, vector: V.Vector, fetched: HeadReply, put: PutReply)
    requires fetched.Head?
    ensures var (cl', merged) := MergeFetched(cl, current, fetched.text, FINE);
            var after := AfterConflict(cl, current, vector, fetched, FINE, put);
            if merged.None? then after.client == cl' && after.sent == []
            else
              var sent := MergeRequest(cl, current, vector, merged.value);
              && after.sent == [sent]
              && after.client
                 == (if put.Accepted? then
                       Received(cl', Answered(ConflictMerge(LocalText(cl)), sent, put.version, false))
                     else Dropped(cl', Merging(sent, fetched.version, LocalText(cl))))
  {
    hide Merge.MergeTexts;
  }

  /** An upload that is not refused, and keeping the local side of a conflict, are single stages too. */
  lemma AnswersInStages(cl: Client, limit: nat, put: PutReply, fetched: HeadReply, put2: PutReply)
    ensures cl.local.Some? && |cl.local.value| <= limit && !InSync(cl) && !put.Stale? ==>
              var after, sent := AfterUploadFile(cl, limit, put, fetched, FINE, put2), UploadRequest(cl);
              && after.sent == [sent]
              && after.client == if put.Accepted? then Received(cl, Answered(Upload, sent, put.version, false)) else cl
    ensures CopyText(cl).Some? ==>
              var after, sent := AfterKeepLocal(cl, FINE, put), KeepRequest(cl);
              var written := cl.(local := CopyText(cl));
              && after.sent == [sent]
              && after.client
                 == if put.Accepted? then Received(written, Answered(Resolve, sent, put.version, false)) else written
  {
    hide Merge.MergeTexts;
  }
}
