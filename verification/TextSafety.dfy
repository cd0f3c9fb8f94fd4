/** What the steps of the sync protocol do to a client's texts: in the file, preserved, and put aside. */
module TextSafety {
  import opened Basics
  import opened Store
  import opened SyncClient
  import opened Protocol
  import opened ProtocolLaws
  import Merge
  import V = VersionVectors

  // ---- what a step does to the file ----

  /** The local text that an exchange holds on to, for a conflict that it may still lead to. */
  function Held(st: Stage): Option<Text> {
    match st
    case Merging(_, _, local) => Some(local)
    case Answered(ConflictMerge(local), _, _, _) => Some(local)
    case _ => None
  }

  /** The text is on the client's disk: in the file, preserved for a conflict, put aside, or held by an exchange. */
  predicate OnDisk(n: Node, t: Text) {
    || n.client.local == Some(t) || t in n.client.copies.Values || t in n.client.kept.Values || Held(n.stage) == Some(t)
  }

  /** The text is that of some version ever committed. */
  predicate Committed(p: Setting, log: Log, t: Text) {
    exists e <- log :: TextOf(p, e.record) == t
  }

  /** The step writes the preserved copy back over the file. */
  predicate RestoresCopy(p: Setting, s: State, step: Step, n: Node) {
    && n.stage == Idle && CopyText(n.client).Some?
    && (|| (step.SendKeepLocal? && Carries(p, step.rec, KeepRequest(n.client)))
        || (step.ReplayKeepLocal? && SavedAnswer(p, s, KeepRequest(n.client).base, KeepRequest(n.client).text).Some?))
  }

  /** The step writes the head over the file to resolve a conflict. */
  predicate TakesHead(p: Setting, s: State, step: Step, n: Node) {
    step.TakeRemote? && n.stage == Idle && n.client.conflict.Some? && HeadOf(p, s).Head?
  }

  /** The step removes the file for a newer tombstone. */
  predicate AppliesTombstone(p: Setting, s: State, step: Step, n: Node) {
    step.ApplyRemote? && n.stage == Idle && HeadOf(p, s).Tombstone? && !AlreadyAt(n.client, HeadOf(p, s).version)
  }

  /** The step writes a newer head over a file without own edits, as far as its record can tell. */
  predicate AppliesHead(p: Setting, s: State, step: Step, n: Node) {
    && step.ApplyRemote? && n.stage == Idle && HeadOf(p, s).Head? && !AlreadyAt(n.client, HeadOf(p, s).version)
    && !HasUnsyncedEdits(n.client)
  }

  /** The step writes a clean merge over the file. */
  predicate WritesMerge(p: Setting, s: State, step: Step, n: Node) {
    && step.FetchAndMerge? && n.stage.Told? && HeadOf(p, s).Head?
    && Merge.MergeTexts(n.client.shadow, LocalText(n.client), HeadOf(p, s).text).clean
  }

  /** Whether a step is one of client `c`. */
  predicate By(step: Step, c: ClientId) {
    !step.CommitOther? && !step.SaveAnswer? && !step.Elsewhere? && step.c == c
  }

  /** The text a step leaves in the file of the client that takes it. */
  function FileAfter(p: Setting, s: State, step: Step, n: Node): Option<Text> {
    if step.Edit? then step.text
    else if RestoresCopy(p, s, step, n) then CopyText(n.client)
    else if TakesHead(p, s, step, n) || AppliesHead(p, s, step, n) then Some(HeadOf(p, s).text)
    else if AppliesTombstone(p, s, step, n) then None
    else if WritesMerge(p, s, step, n) then
      Some(Merge.MergeTexts(n.client.shadow, LocalText(n.client), HeadOf(p, s).text).merged)
    else n.client.local
  }

  /** Over every step of the protocol, the file on a client's disk changes only by that client's own steps, and
      exactly as follows: an edit of the user, the preserved copy written back, a head taken or applied, a
      tombstone applied, or a clean merge. */
  lemma FileChangesExactly(p: Setting, s: State, step: Step, c: ClientId)
    requires c in s.nodes
    ensures var s' := Do(p, s, step);
            && c in s'.nodes
            && s'.nodes[c].client.local
               == if By(step, c) then FileAfter(p, s, step, s.nodes[c]) else s.nodes[c].client.local
  {
    hide Merge.MergeTexts, UpdateFile, HeadOf, SavedAnswer, CopyText, V.Bump, InSync, TouchesOthers, Apply;
    if !By(step, c) {
      OtherNodesStay(p, s, step, c);
    }
  }

  lemma OtherNodesStay(p: Setting, s: State, step: Step, c: ClientId)
    requires c in s.nodes && !By(step, c)
    ensures c in Do(p, s, step).nodes && Do(p, s, step).nodes[c] == s.nodes[c]
  {
    hide Merge.MergeTexts, UpdateFile, HeadOf, SavedAnswer, CopyText, V.Bump, InSync, TouchesOthers, Apply,
         MergeFetched, AfterKeepRemote, AfterApply, Received, Dropped, Carries;
  }

  // ---- which texts a step loses ----

  /** The step moves the preserved copy beside the file. */
  predicate MovesCopy(p: Setting, s: State, step: Step, n: Node) {
    TakesHead(p, s, step, n) && step.aside.Some? && CopyText(n.client).Some?
  }

  /** A merge on disk cannot be sent any more, or its answer gets lost. */
  predicate GivesUpMerge(p: Setting, s: State, step: Step, n: Node) {
    || (step.Drop? && (n.stage.Merging? || (n.stage.Answered? && n.stage.flow.ConflictMerge?)))
    || (&& step.SendMerge? && n.stage.Merging? && Knows(n.client) && Carries(p, step.rec, n.stage.sent)
        && UpdateFile(s.store, step.rec, n.stage.sent.base).1.Err?)
  }

  /** The step finds that the local file and the fetched head do not merge. */
  predicate FailsToMerge(p: Setting, s: State, step: Step, n: Node) {
    && step.FetchAndMerge? && n.stage.Told? && HeadOf(p, s).Head?
    && !Merge.MergeTexts(n.client.shadow, LocalText(n.client), HeadOf(p, s).text).clean
  }

  /** The step finds a newer head while the file has own edits. */
  predicate FindsOwnEdits(p: Setting, s: State, step: Step, n: Node) {
    && step.ApplyRemote? && n.stage == Idle && HeadOf(p, s).Head? && !AlreadyAt(n.client, HeadOf(p, s).version)
    && HasUnsyncedEdits(n.client)
  }

  datatype NewCopy = NewCopy(name: CopyName, text: Text)

  /** What a step preserves in a new conflict, and where. */
  function Preserved(p: Setting, s: State, step: Step, n: Node): Option<NewCopy> {
    if GivesUpMerge(p, s, step, n) then Some(NewCopy(FromUpload, Held(n.stage).value))
    else if FailsToMerge(p, s, step, n) then Some(NewCopy(FromUpload, LocalText(n.client)))
    else if FindsOwnEdits(p, s, step, n) then Some(NewCopy(FromHead, n.client.local.value))
    else None
  }

  /** A step preserves and puts aside exactly this, in place of what had the same name or date. */
  predicate CopiesAre(p: Setting, s: State, step: Step, n: Node, after: Client) {
    && after.kept == (if MovesCopy(p, s, step, n) then n.client.kept[step.aside.value := CopyText(n.client).value]
                      else n.client.kept)
    && var copies, made := n.client.copies, Preserved(p, s, step, n);
       after.copies == if made.Some? then copies[made.value.name := made.value.text]
                       else if MovesCopy(p, s, step, n) then copies - {n.client.conflict.value.name}
                       else copies
  }

  /** Over every step of the protocol, a client's preserved and put-aside texts change only by its own steps, and
      exactly so: a new conflict preserves its text, and keeping both moves the copy aside. */
  lemma CopiesChangeExactly(p: Setting, s: State, step: Step, c: ClientId)
    requires c in s.nodes
    ensures var n, n' := s.nodes[c], Do(p, s, step).nodes[c];
            if By(step, c) then CopiesAre(p, s, step, n, n'.client)
            else n'.client.copies == n.client.copies && n'.client.kept == n.client.kept
  {
    hide Do, DoClient, CopiesAre;
    if By(step, c) {
      OwnStep(p, s, step);
      if step.TakeRemote? || step.ApplyRemote? || step.FetchAndMerge? || step.SendMerge? || step.Drop? {
        StepsThatCopy(p, s, step);
      } else {
        StepsThatDoNot(p, s, step);
      }
    } else {
      OtherNodesStay(p, s, step, c);
    }
  }

  lemma OwnStep(p: Setting, s: State, step: Step)
    requires !step.CommitOther? && !step.SaveAnswer? && !step.Elsewhere? && step.c in s.nodes
    ensures Do(p, s, step) == DoClient(p, s, step, s.nodes[step.c])
  {
    hide DoClient;
  }

  lemma StepsThatDoNot(p: Setting, s: State, step: Step)
    requires !step.CommitOther? && !step.SaveAnswer? && !step.Elsewhere? && step.c in s.nodes
    requires !(step.TakeRemote? || step.ApplyRemote? || step.FetchAndMerge? || step.SendMerge? || step.Drop?)
    ensures CopiesAre(p, s, step, s.nodes[step.c], DoClient(p, s, step, s.nodes[step.c]).nodes[step.c].client)
  {
    hide UpdateFile, HeadOf, SavedAnswer, CopyText, V.Bump, InSync, Carries, HasUnsyncedEdits, AlreadyAt, UploadRequest,
         KeepRequest, MergeFetched, AfterApply, AfterKeepRemote, Merge.MergeTexts;
  }

  lemma StepsThatCopy(p: Setting, s: State, step: Step)
    requires step.TakeRemote? || step.ApplyRemote? || step.FetchAndMerge? || step.SendMerge? || step.Drop?
    requires step.c in s.nodes
    ensures CopiesAre(p, s, step, s.nodes[step.c], DoClient(p, s, step, s.nodes[step.c]).nodes[step.c].client)
  {
    hide DoClient, CopiesAre;
    match step
    case TakeRemote(_, _) => TakeRemoteCopies(p, s, step);
    case ApplyRemote(_) => ApplyRemoteCopies(p, s, step);
    case FetchAndMerge(_) => FetchCopies(p, s, step);
    case SendMerge(_, _) => SendMergeCopies(p, s, step);
    case Drop(_) => DropCopies(p, s, step);
  }

  lemma TakeRemoteCopies(p: Setting, s: State, step: Step)
    requires step.TakeRemote? && step.c in s.nodes
    ensures CopiesAre(p, s, step, s.nodes[step.c], DoClient(p, s, step, s.nodes[step.c]).nodes[step.c].client)
  {
    hide UpdateFile, HeadOf, SavedAnswer, CopyText, V.Bump, InSync, Carries, HasUnsyncedEdits, Merge.MergeTexts;
  }

  lemma ApplyRemoteCopies(p: Setting, s: State, step: Step)
    requires step.ApplyRemote? && step.c in s.nodes
    ensures CopiesAre(p, s, step, s.nodes[step.c], DoClient(p, s, step, s.nodes[step.c]).nodes[step.c].client)
  {
    hide UpdateFile, HeadOf, SavedAnswer, CopyText, V.Bump, InSync, Carries, HasUnsyncedEdits, Merge.MergeTexts;
  }

  lemma FetchCopies(p: Setting, s: State, step: Step)
    requires step.FetchAndMerge? && step.c in s.nodes
    ensures CopiesAre(p, s, step, s.nodes[step.c], DoClient(p, s, step, s.nodes[step.c]).nodes[step.c].client)
  {
    hide UpdateFile, HeadOf, SavedAnswer, CopyText, V.Bump, InSync, Carries, HasUnsyncedEdits, Merge.MergeTexts;
  }

  lemma SendMergeCopies(p: Setting, s: State, step: Step)
    requires step.SendMerge? && step.c in s.nodes
    ensures CopiesAre(p, s, step, s.nodes[step.c], DoClient(p, s, step, s.nodes[step.c]).nodes[step.c].client)
  {
    hide UpdateFile, HeadOf, SavedAnswer, CopyText, V.Bump, InSync, Carries, HasUnsyncedEdits, Merge.MergeTexts;
  }

  lemma DropCopies(p: Setting, s: State, step: Step)
    requires step.Drop? && step.c in s.nodes
    ensures CopiesAre(p, s, step, s.nodes[step.c], DoClient(p, s, step, s.nodes[step.c]).nodes[step.c].client)
  {
    hide UpdateFile, HeadOf, SavedAnswer, CopyText, V.Bump, InSync, Carries, HasUnsyncedEdits, Merge.MergeTexts;
  }

  /** What the exchange holds on to after a step. */
  function HeldAfter(p: Setting, s: State, step: Step, n: Node): Option<Text> {
    if WritesMerge(p, s, step, n) then Some(LocalText(n.client))
    else if GivesUpMerge(p, s, step, n) || (step.Receive? && n.stage.Answered?) then None
    else Held(n.stage)
  }

  /** Over every step, an exchange holds on to a local text from the merge until it is answered or given up. */
  lemma HeldChangesExactly(p: Setting, s: State, step: Step, c: ClientId)
    requires c in s.nodes
    ensures Held(Do(p, s, step).nodes[c].stage)
            == if By(step, c) then HeldAfter(p, s, step, s.nodes[c]) else Held(s.nodes[c].stage)
  {
    hide Merge.MergeTexts, UpdateFile, HeadOf, SavedAnswer, CopyText, V.Bump, InSync, TouchesOthers, Apply;
    if !By(step, c) {
      OtherNodesStay(p, s, step, c);
    }
  }

  lemma ValuesWithout<K, V>(m: map<K, V>, key: K, v: V)
    ensures v in (m - {key}).Values <==> exists k <- m :: k != key && m[k] == v
  {
    var m' := m - {key};
    if k :| k in m && k != key && m[k] == v {
      assert k in m' && m'[k] == v;
    }
  }

  lemma ValuesWith<K, V>(m: map<K, V>, key: K, w: V, v: V)
    ensures v in m[key := w].Values <==> v == w || exists k <- m :: k != key && m[k] == v
  {
    var m' := m[key := w];
    assert key in m' && m'[key] == w;
    if k :| k in m && k != key && m[k] == v {
      assert k in m' && m'[k] == v;
    }
  }

  /** Where a text is after an own step, apart from the file. */
  lemma PlacesAfter(p: Setting, s: State, step: Step, n: Node, n': Node, t: Text)
    requires CopiesAre(p, s, step, n, n'.client)
    ensures var made := Preserved(p, s, step, n);
            t in n'.client.copies.Values <==>
              || (made.Some? && made.value.text == t)
              || (exists name <- n.client.copies ::
                    && n.client.copies[name] == t && !(made.Some? && name == made.value.name)
                    && !(MovesCopy(p, s, step, n) && name == n.client.conflict.value.name))
    ensures t in n'.client.kept.Values <==>
              || (MovesCopy(p, s, step, n) && CopyText(n.client).value == t)
              || (exists date <- n.client.kept ::
                    n.client.kept[date] == t && !(MovesCopy(p, s, step, n) && date == step.aside.value))
  {
    hide HeadOf, Carries, HasUnsyncedEdits, AlreadyAt, Merge.MergeTexts;
    var made := Preserved(p, s, step, n);
    if made.Some? {
      ValuesWith(n.client.copies, made.value.name, made.value.text, t);
    }
    if MovesCopy(p, s, step, n) {
      ValuesWithout(n.client.copies, n.client.conflict.value.name, t);
      ValuesWith(n.client.kept, step.aside.value, CopyText(n.client).value, t);
    }
  }

  lemma WholeStep(p: Setting, s: State, step: Step, c: ClientId)
    requires c in s.nodes
    ensures c in Do(p, s, step).nodes
    ensures var n, n' := s.nodes[c], Do(p, s, step).nodes[c];
            if By(step, c) then
              && n'.client.local == FileAfter(p, s, step, n) && CopiesAre(p, s, step, n, n'.client)
              && Held(n'.stage) == HeldAfter(p, s, step, n)
            else n' == n
  {
    hide Do, FileAfter, HeldAfter, CopiesAre;
    FileChangesExactly(p, s, step, c);
    CopiesChangeExactly(p, s, step, c);
    HeldChangesExactly(p, s, step, c);
    if !By(step, c) {
      OtherNodesStay(p, s, step, c);
    }
  }

  /** Of the steps that can take a text off the disk, only sending a preserved copy commits anything, namely it. */
  lemma WhatIsCommitted(p: Setting, s: State, step: Step)
    requires !step.CommitOther? && !step.SaveAnswer? && !step.Elsewhere? && step.c in s.nodes
    requires !step.SendUpload? && !step.SendMerge?
    ensures var log', n := Do(p, s, step).log, s.nodes[step.c];
            || log' == s.log
            || (&& |log'| == |s.log| + 1 && log'[..|s.log|] == s.log && RestoresCopy(p, s, step, n)
                && CopyText(n.client) == Some(TextOf(p, log'[|s.log|].record)))
  {
    hide HeadOf, SavedAnswer, V.Bump, Merge.MergeTexts, CopyText, MergeFetched, AfterKeepRemote, AfterApply;
  }

  /** A text that is in the file and nowhere else on the disk. */
  predicate OnlyInFile(n: Node, t: Text) {
    && n.client.local == Some(t) && t !in n.client.copies.Values && t !in n.client.kept.Values
    && Held(n.stage) != Some(t)
  }

  /** A text that is only in the file leaves the disk over a step exactly when the user edits it away, or a
      preserved copy, a head with another text or a tombstone replaces it. No such step commits it. */
  lemma FileTextLostExactly(p: Setting, s: State, step: Step, c: ClientId, t: Text)
    requires c in s.nodes && OnlyInFile(s.nodes[c], t)
    ensures var s', n := Do(p, s, step), s.nodes[c];
            && (!OnDisk(s'.nodes[c], t) <==>
                 && By(step, c)
                 && (|| (step.Edit? && step.text != Some(t))
                     || RestoresCopy(p, s, step, n) || AppliesTombstone(p, s, step, n)
                     || ((TakesHead(p, s, step, n) || AppliesHead(p, s, step, n)) && HeadOf(p, s).text != t)))
            && (!OnDisk(s'.nodes[c], t) && !Committed(p, s.log, t) ==> !Committed(p, s'.log, t))
  {
    hide Do, DoClient, HeadOf, Carries, HasUnsyncedEdits, AlreadyAt, Merge.MergeTexts;
    WholeStep(p, s, step, c);
    if By(step, c) {
      PlacesAfter(p, s, step, s.nodes[c], Do(p, s, step).nodes[c], t);
      if !step.SendUpload? && !step.SendMerge? {
        WhatIsCommitted(p, s, step);
      }
    }
  }

  /** A preserved text that is nowhere else leaves the disk over a step exactly when a new conflict preserves
      another text under its name. */
  lemma CopyLostExactly(p: Setting, s: State, step: Step, c: ClientId, t: Text)
    requires c in s.nodes && t in s.nodes[c].client.copies.Values && s.nodes[c].client.local != Some(t)
    requires t !in s.nodes[c].client.kept.Values && Held(s.nodes[c].stage) != Some(t)
    ensures var n := s.nodes[c];
            !OnDisk(Do(p, s, step).nodes[c], t) <==>
              && By(step, c)
              && Preserved(p, s, step, n).Some? && Preserved(p, s, step, n).value.text != t
              && forall name <- n.client.copies ::
                   n.client.copies[name] == t ==> name == Preserved(p, s, step, n).value.name
  {
    hide Do, DoClient, HeadOf, Carries, HasUnsyncedEdits, AlreadyAt, Merge.MergeTexts;
    WholeStep(p, s, step, c);
    if By(step, c) {
      PlacesAfter(p, s, step, s.nodes[c], Do(p, s, step).nodes[c], t);
    }
  }

  /** A text that was put aside and is nowhere else leaves the disk exactly when a different copy is put aside
      under its date, and the head that takes the file is not it either. */
  lemma PutAsideLostExactly(p: Setting, s: State, step: Step, c: ClientId, t: Text)
    requires c in s.nodes && t in s.nodes[c].client.kept.Values && s.nodes[c].client.local != Some(t)
    requires t !in s.nodes[c].client.copies.Values && Held(s.nodes[c].stage) != Some(t)
    ensures var n := s.nodes[c];
            !OnDisk(Do(p, s, step).nodes[c], t) <==>
              && By(step, c) && MovesCopy(p, s, step, n) && HeadOf(p, s).text != t
              && forall date <- n.client.kept :: n.client.kept[date] == t ==> date == step.aside.value
  {
    hide Do, DoClient, HeadOf, Carries, HasUnsyncedEdits, AlreadyAt, Merge.MergeTexts;
    WholeStep(p, s, step, c);
    if By(step, c) {
      PlacesAfter(p, s, step, s.nodes[c], Do(p, s, step).nodes[c], t);
    }
  }

  /** A text that only an exchange still holds leaves the disk exactly when the answer arrives that its merge is
      accepted. */
  lemma HeldTextLostExactly(p: Setting, s: State, step: Step, c: ClientId, t: Text)
    requires c in s.nodes && Held(s.nodes[c].stage) == Some(t) && s.nodes[c].client.local != Some(t)
    requires t !in s.nodes[c].client.copies.Values && t !in s.nodes[c].client.kept.Values
    ensures !OnDisk(Do(p, s, step).nodes[c], t) <==>
              By(step, c) && step.Receive? && s.nodes[c].stage.Answered?
  {
    hide Do, DoClient, HeadOf, Carries, HasUnsyncedEdits, AlreadyAt, Merge.MergeTexts;
    WholeStep(p, s, step, c);
    if By(step, c) {
      PlacesAfter(p, s, step, s.nodes[c], Do(p, s, step).nodes[c], t);
    }
  }

  // ---- single calls, also when the disk fails ----

  /** Local text that no record accounts for. */
  predicate Unsynced(c: Client) {
    c.local.Some? && (c.record.None? || c.record.value.localText.None? || HasUnsyncedEdits(c))
  }

  /** Handling a conflict keeps the local text in the file or, when the copy can be written, beside it, except
      when it went into a clean merge that the server has accepted. */
  lemma ConflictKeepsLocalText(c: Client, current: int, vector: V.Vector, fetched: HeadReply, disk: Disk, put: PutReply)
    requires c.local.Some?
    ensures var after := AfterConflict(c, current, vector, fetched, disk, put).client;
            var m := if fetched.Head? then Merge.MergeTexts(c.shadow, c.local.value, fetched.text)
                     else Merge.MergeResult(false, [], []);
            && (after.local != c.local <==> m.clean && disk.writable && m.merged != c.local.value)
            && (after.local != c.local ==>
                  if put.Accepted? then
                    && after.record.Some? && after.record.value.version == put.version
                    && after.record.value.localText == after.record.value.remoteText == Some(m.merged)
                  else
                    && after.conflict == Some(SyncClient.Conflict.Conflict(current, FromUpload))
                    && (disk.copyable ==> CopyText(after) == c.local))
  {
    hide Merge.MergeTexts;
  }

  /** Applying a remote head takes unsynced text off the disk exactly when a newer tombstone arrives, or a different
      text for a file that has no record or one with unknown texts; own edits stay and open a conflict if the head
      is newer. */
  lemma ApplyKeepsLocalText(c: Client, head: HeadReply, ignored: bool, disk: Disk)
    requires Unsynced(c)
    ensures var after := AfterApply(c, head, ignored, disk).0;
            var newer := !ignored && (head.Head? || head.Tombstone?) && !AlreadyAt(c, head.version);
            && (after.local != c.local <==>
                  && newer
                  && (|| head.Tombstone?
                      || (!HasUnsyncedEdits(c) && disk.writable && head.text != c.local.value)))
            && (newer && head.Head? && HasUnsyncedEdits(c) ==>
                  && after.conflict == Some(SyncClient.Conflict.Conflict(head.version, FromHead))
                  && (disk.copyable ==> CopyText(after) == c.local))
  {
  }

  /** Resolving a conflict takes the local text off the disk exactly when the file can be written and the side that
      is kept has another text: the preserved copy, or the head. */
  lemma ResolveChangesFileWhen(c: Client, strategy: Strategy, disk: Disk, put: PutReply, fetched: HeadReply)
    ensures AfterResolve(c, strategy, disk, put, fetched).client.local != c.local <==>
              && c.conflict.Some? && disk.writable
              && (|| (strategy.KeepLocal? && disk.readable && CopyText(c).Some? && CopyText(c) != c.local)
                  || ((strategy.KeepRemote? || strategy.KeepBoth?) && fetched.Head? && Some(fetched.text) != c.local))
  {
  }

  /** Keeping both sides of a conflict puts the copy aside before the head is written, and so loses neither. */
  lemma KeepBothKeepsBoth(c: Client, date: string, disk: Disk, put: PutReply, fetched: HeadReply)
    requires CopyText(c).Some? && fetched.Head?
    ensures var after := AfterResolve(c, KeepBoth(date), disk, put, fetched);
            && after.client.kept == c.kept[date := CopyText(c).value]
            && (after.ok <==> disk.writable)
            && after.client.local == (if disk.writable then Some(fetched.text) else c.local)
  {
  }
}
