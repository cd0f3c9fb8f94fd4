/** Runs of the sync protocol that show where its promises end. */
module SyncExamples {
  import opened Basics
  import opened Store
  import opened SyncClient
  import opened Protocol
  import opened ProtocolLaws
  import opened SyncSafety
  import opened TextSafety
  import Merge
  import V = VersionVectors
  import J = VectorJson

  const FILE := Key("account", "file")

  /** Hashes stand for themselves; retry keys spell out base and text. */
  function Example(): Setting {
    Setting(FILE, (hash: string) => hash, (base: int, text: Text) => J.Decimal(base) + ("/" + text))
  }

  lemma NumberEndsAtSlash(text: Text, n: int, fits: bool)
    ensures J.TakeNumber("/" + text, n, true, fits).rest == "/" + text
    ensures J.TakeNumber("/" + text, n, true, fits).value == n
  {
  }

  lemma KeyReadsBack(base: int, text: Text)
    ensures var k := J.Decimal(base) + ("/" + text);
            && k != [] && (k[0] == '-' <==> base < 0)
            && var n := J.TakeNumber(J.Skip(k, '-'), 0, false, true);
               n.rest == "/" + text && n.value == (if base < 0 then -base else base)
  {
    hide J.TakeNumber;
    var m := J.Magnitude(base);
    var tail := "/" + text;
    J.DigitsStart(m);
    J.DigitsReadBack(m, tail, false, true);
    NumberEndsAtSlash(text, m, m <= V.MAX_INT64);
    if base < 0 {
      assert J.Decimal(base) + tail == "-" + (J.Digits(m) + tail);
      assert (J.Decimal(base) + tail)[1..] == J.Digits(m) + tail;
    }
  }

  lemma ExampleKeysDistinct()
    ensures KeysDistinct(Example())
  {
    hide J.TakeNumber, J.Decimal;
    var p := Example();
    forall b: int, t: Text, b': int, t': Text | p.idemKey(b, t) == p.idemKey(b', t')
      ensures b == b' && t == t'
    {
      KeyReadsBack(b, t);
      KeyReadsBack(b', t');
      assert ("/" + t)[1..] == t && ("/" + t')[1..] == t';
    }
  }

  /** A record of the file with this text; the store numbers it when it commits it. */
  function Rec(text: Text, deleted: bool, vector: V.Vector): FileRecord {
    FileRecord(FILE, [], text, 1, vector, deleted, 0, "", 0, "device", 1)
  }

  const ONCE: FileRecord := Rec("a", false, map[])

  function Stored(rec: FileRecord, version: int): FileRecord { rec.(version := version, changeSeq := version) }

  const FIRST: Client :=
    Client("A", Some(Record(1, Some("a"), Some("a"), false, map[])), "a", Some("a"), None, map[], map[])

  /** One client, in step with version 1, whose text is "a". */
  function OneClient(): State {
    State(Data(map[FILE := ONCE], map[FILE := [VersionOf(ONCE)]], [ChangeOf(ONCE)], 2, map[]),
          map[0 := Node(FIRST, Idle)], [Entry(ONCE, Other)])
  }

  lemma OneClientStarts()
    ensures Start(Example(), OneClient())
  {
  }

  // ---- one step at a time ----

  /** The state after the first `k` steps. */
  ghost function After(steps: seq<Step>, k: nat): State
    requires k <= |steps|
  {
    Protocol.Run(Example(), OneClient(), steps[..k])
  }

  lemma {:induction false} RunOneMore(s: State, steps: seq<Step>, k: nat)
    requires k < |steps|
    ensures Protocol.Run(Example(), s, steps[..k + 1])
            == Do(Example(), Protocol.Run(Example(), s, steps[..k]), steps[k])
    decreases k
  {
    hide Do;
    assert steps[..k + 1][0] == steps[0];
    if k == 0 {
      assert steps[..1][1..] == [] && steps[..0] == [];
    } else {
      assert steps[..k + 1][1..] == steps[1..][..k] && steps[..k][1..] == steps[1..][..k - 1];
      RunOneMore(Do(Example(), s, steps[0]), steps[1..], k - 1);
    }
  }

  /** The head, the only client, the number of the next change, and the history so far. */
  ghost predicate At(s: State, head: FileRecord, n: Node, log: seq<Entry>) {
    && FILE in s.store.files && s.store.files[FILE] == head && head.version == |log| && s.store.nextSeq == |log| + 1
    && 0 in s.nodes && s.nodes[0] == n && s.log == log
  }

  lemma StartsAt(steps: seq<Step>)
    ensures At(After(steps, 0), ONCE, Node(FIRST, Idle), [Entry(ONCE, Other)])
  {
    assert steps[..0] == [];
  }

  lemma Others(steps: seq<Step>, k: nat, head: FileRecord, n: Node, log: seq<Entry>)
    requires k < |steps| && At(After(steps, k), head, n, log)
    requires steps[k].CommitOther? && steps[k].rec.key == FILE && steps[k].baseVersion == |log|
    ensures var f := Stored(steps[k].rec, |log| + 1);
            At(After(steps, k + 1), f, n, log + [Entry(f, Other)])
  {
    hide Protocol.Run;
    RunOneMore(OneClient(), steps, k);
  }

  /** A step of the client that leaves the server alone. */
  lemma Moves(steps: seq<Step>, k: nat, head: FileRecord, n: Node, n': Node, log: seq<Entry>)
    requires k < |steps| && At(After(steps, k), head, n, log) && MovesTo(steps[k], head, n, n')
    ensures At(After(steps, k + 1), head, n', log)
  {
    hide Protocol.Run, Merge.MergeTexts, V.Bump;
    RunOneMore(OneClient(), steps, k);
  }

  ghost predicate MovesTo(step: Step, head: FileRecord, n: Node, n': Node) {
    match step
    case Edit(c, text) => c == 0 && n' == n.(client := n.client.(local := text))
    case ReadRefusal(c) => c == 0 && n.stage == Refused && n' == n.(stage := Told(head.version, head.vector))
    case FetchAndMerge(c) =>
      && c == 0 && n.stage.Told? && !head.deleted
      && var (cl, merged) := MergeFetched(n.client, n.stage.current, head.contentHash, FINE);
         && merged.Some?
         && n' == Node(cl, Merging(MergeRequest(n.client, n.stage.current, n.stage.vector, merged.value),
                                   head.version, LocalText(n.client)))
    case ApplyRemote(c) =>
      && c == 0 && n.stage == Idle
      && var reply := if head.deleted then Tombstone(head.version)
                      else HeadReply.Head(head.version, head.contentHash, head.vector);
         n' == n.(client := AfterApply(n.client, reply, false, FINE).0)
    case Receive(c) => c == 0 && n.stage.Answered? && n' == Node(Received(n.client, n.stage), Idle)
    case Forget(c) => c == 0 && n.stage == Idle && n' == n.(client := n.client.(record := None))
    case Open(c) => c == 0 && n' == n.(client := AfterOpen(n.client))
    case _ => false
  }

  /** An upload over an old version is refused, one over the head accepted. */
  lemma Uploads(steps: seq<Step>, k: nat, head: FileRecord, n: Node, log: seq<Entry>)
    requires k < |steps| && At(After(steps, k), head, n, log) && steps[k].SendUpload? && steps[k].c == 0
    requires CanUpload(n) && Carries(Example(), steps[k].rec, UploadRequest(n.client))
    ensures var f, sent := Stored(steps[k].rec, |log| + 1), UploadRequest(n.client);
            if sent.base == |log| then
              At(After(steps, k + 1), f, n.(stage := Answered(Upload, sent, |log| + 1, false)),
                 log + [Entry(f, DirectFrom(n.client))])
            else At(After(steps, k + 1), head, n.(stage := Refused), log)
  {
    hide Protocol.Run, V.Bump;
    RunOneMore(OneClient(), steps, k);
  }

  lemma MergeIsAccepted(steps: seq<Step>, k: nat, head: FileRecord, n: Node, log: seq<Entry>)
    requires k < |steps| && At(After(steps, k), head, n, log) && steps[k].SendMerge? && steps[k].c == 0
    requires n.stage.Merging? && Knows(n.client) && Carries(Example(), steps[k].rec, n.stage.sent)
    requires n.stage.sent.base == |log|
    ensures After(steps, k + 1).log
            == log + [Entry(Stored(steps[k].rec, |log| + 1),
                            AutoMerge(n.client.record.value.version, n.client.shadow, n.stage.local, n.client.device))]
  {
    hide Protocol.Run, V.Bump;
    RunOneMore(OneClient(), steps, k);
  }

  lemma CopyIsAccepted(steps: seq<Step>, k: nat, head: FileRecord, n: Node, log: seq<Entry>)
    requires k < |steps| && At(After(steps, k), head, n, log) && steps[k].SendKeepLocal? && steps[k].c == 0
    requires n.stage == Idle && CopyText(n.client).Some? && Carries(Example(), steps[k].rec, KeepRequest(n.client))
    requires n.client.conflict.value.remoteVersion == |log|
    ensures var f, sent := Stored(steps[k].rec, |log| + 1), KeepRequest(n.client);
            At(After(steps, k + 1), f,
               Node(n.client.(local := CopyText(n.client)), Answered(Resolve, sent, |log| + 1, false)),
               log + [Entry(f, DirectFrom(n.client))])
  {
    hide Protocol.Run, V.Bump;
    RunOneMore(OneClient(), steps, k);
  }

  lemma Done(steps: seq<Step>)
    ensures Protocol.Run(Example(), OneClient(), steps) == After(steps, |steps|)
  {
    assert steps[..|steps|] == steps;
  }

  // ---- steps that lose an edit that was never uploaded ----

  /** Before the last step the text is in the file and no record accounts for it; after it the text is in no file,
      copy or exchange of the client and in no version ever committed. */
  ghost predicate LosesUnsynced(steps: seq<Step>, t: Text) {
    && steps != []
    && var before, after := After(steps, |steps| - 1), Protocol.Run(Example(), OneClient(), steps);
       && 0 in before.nodes && 0 in after.nodes
       && Unsynced(before.nodes[0].client) && before.nodes[0].client.local == Some(t)
       && !OnDisk(after.nodes[0], t) && !Committed(Example(), after.log, t)
  }

  const GONE := Rec("a", true, map[])

  function EditThenTombstone(): seq<Step> { [Edit(0, Some("mine")), CommitOther(GONE, 1), ApplyRemote(0)] }

  /** An edit that was never uploaded is removed by a tombstone, and is nowhere else. */
  lemma TombstoneRemovesEdit()
    ensures Start(Example(), OneClient()) && KeysDistinct(Example())
    ensures LosesUnsynced(EditThenTombstone(), "mine")
  {
    hide Protocol.Run, Start, KeysDistinct;
    OneClientStarts();
    ExampleKeysDistinct();
    var steps, log := EditThenTombstone(), [Entry(ONCE, Other)];
    var edited := Node(FIRST.(local := Some("mine")), Idle);
    StartsAt(steps);
    Moves(steps, 0, ONCE, Node(FIRST, Idle), edited, log);
    Others(steps, 1, ONCE, edited, log);
    var log' := log + [Entry(Stored(GONE, 2), Other)];
    var removed := FIRST.(local := None, record := Some(Record(2, Some("a"), Some("a"), true, map[])));
    Moves(steps, 2, Stored(GONE, 2), edited, Node(removed, Idle), log');
    Done(steps);
  }

  const THEIRS := Rec("b", false, map["B" := 1])
  const UPLOAD := Rec("x", false, map["A" := 1])

  const TORN: Client :=
    FIRST.(local := Some("x"), conflict := Some(SyncClient.Conflict.Conflict(2, FromHead)),
           copies := map[FromHead := "x"])

  function LogOf2(): seq<Entry> { [Entry(ONCE, Other), Entry(Stored(THEIRS, 2), Other)] }

  /** An edit meets another client's version: the conflict opens, with "x" preserved. */
  lemma ConflictOpens(steps: seq<Step>)
    requires |steps| >= 3 && steps[..3] == [Edit(0, Some("x")), CommitOther(THEIRS, 1), ApplyRemote(0)]
    ensures At(After(steps, 3), Stored(THEIRS, 2), Node(TORN, Idle), LogOf2())
  {
    hide Protocol.Run, After;
    var edited, log := Node(FIRST.(local := Some("x")), Idle), [Entry(ONCE, Other)];
    assert forall i :: 0 <= i < 3 ==> steps[i] == steps[..3][i];
    StartsAt(steps);
    Moves(steps, 0, ONCE, Node(FIRST, Idle), edited, log);
    Others(steps, 1, ONCE, edited, log);
    Moves(steps, 2, Stored(THEIRS, 2), edited, Node(TORN, Idle), LogOf2());
  }

  function EditAfterConflict(): seq<Step> {
    [Edit(0, Some("x")), CommitOther(THEIRS, 1), ApplyRemote(0), Edit(0, Some("y")), SendKeepLocal(0, UPLOAD)]
  }

  /** Keeping the local side of a conflict brings back the text of the time it was found, over later edits. */
  lemma KeepLocalLosesEdit()
    ensures Start(Example(), OneClient()) && KeysDistinct(Example())
    ensures LosesUnsynced(EditAfterConflict(), "y")
  {
    hide Protocol.Run, Start, KeysDistinct;
    OneClientStarts();
    ExampleKeysDistinct();
    var steps := EditAfterConflict();
    ConflictOpens(steps);
    var later := Node(TORN.(local := Some("y")), Idle);
    Moves(steps, 3, Stored(THEIRS, 2), Node(TORN, Idle), later, LogOf2());
    CopyIsAccepted(steps, 4, Stored(THEIRS, 2), later, LogOf2());
    Done(steps);
  }

  const THIRD := Rec("c", false, map["B" := 2])

  function ConflictTwice(): seq<Step> {
    [Edit(0, Some("x")), CommitOther(THEIRS, 1), ApplyRemote(0), Edit(0, Some("y")), CommitOther(THIRD, 2),
     ApplyRemote(0)]
  }

  /** A second conflict preserves its text over the copy that the first one preserved: "x" was never uploaded, and
      its conflict never resolved. */
  lemma SecondConflictLosesCopy()
    ensures Start(Example(), OneClient()) && KeysDistinct(Example())
    ensures var before, after := After(ConflictTwice(), 5), Protocol.Run(Example(), OneClient(), ConflictTwice());
            && 0 in before.nodes && 0 in after.nodes && CopyText(before.nodes[0].client) == Some("x")
            && !OnDisk(after.nodes[0], "x") && !Committed(Example(), after.log, "x")
  {
    hide Protocol.Run, Start, KeysDistinct;
    OneClientStarts();
    ExampleKeysDistinct();
    var steps := ConflictTwice();
    ConflictOpens(steps);
    var later := Node(TORN.(local := Some("y")), Idle);
    Moves(steps, 3, Stored(THEIRS, 2), Node(TORN, Idle), later, LogOf2());
    Others(steps, 4, Stored(THEIRS, 2), later, LogOf2());
    var again := later.client.(conflict := Some(SyncClient.Conflict.Conflict(3, FromHead)),
                               copies := map[FromHead := "y"]);
    Moves(steps, 5, Stored(THIRD, 3), later, Node(again, Idle), LogOf2() + [Entry(Stored(THIRD, 3), Other)]);
    Done(steps);
  }

  function OpenAndApply(): seq<Step> { [Edit(0, Some("mine")), Forget(0), Open(0), ApplyRemote(0)] }

  /** A record that only opening the file made does not guard it: the head takes its place. */
  lemma OpenedFileIsOverwritten()
    ensures Start(Example(), OneClient()) && KeysDistinct(Example())
    ensures LosesUnsynced(OpenAndApply(), "mine")
  {
    hide Protocol.Run, Start, KeysDistinct;
    OneClientStarts();
    ExampleKeysDistinct();
    var steps, log := OpenAndApply(), [Entry(ONCE, Other)];
    var edited := FIRST.(local := Some("mine"));
    var known := edited.(record := Some(Record(0, None, None, false, map[])));
    StartsAt(steps);
    Moves(steps, 0, ONCE, Node(FIRST, Idle), Node(edited, Idle), log);
    Moves(steps, 1, ONCE, Node(edited, Idle), Node(edited.(record := None), Idle), log);
    Moves(steps, 2, ONCE, Node(edited.(record := None), Idle), Node(known, Idle), log);
    Moves(steps, 3, ONCE, Node(known, Idle), Node(FIRST, Idle), log);
    Done(steps);
  }

  // ---- a merge against an older base ----

  const CHANGED := Rec("b", false, map[])
  const DROPPED := Rec("b", true, map[])
  const BACK := Rec("a", false, map[])

  /** The file moves on to "b", is deleted, and comes back as "a"; the client, which applied the tombstone,
      writes "x", is refused, and merges. */
  function DeleteAndRestore(): seq<Step> {
    [CommitOther(CHANGED, 1), CommitOther(DROPPED, 2), ApplyRemote(0), CommitOther(BACK, 3), Edit(0, Some("x")),
     SendUpload(0, UPLOAD), ReadRefusal(0), FetchAndMerge(0), SendMerge(0, UPLOAD)]
  }

  function LogOf4(): seq<Entry> {
    [Entry(ONCE, Other), Entry(Stored(CHANGED, 2), Other), Entry(Stored(DROPPED, 3), Other),
     Entry(Stored(BACK, 4), Other)]
  }

  const CAUGHT_UP: Client := FIRST.(local := None, record := Some(Record(3, Some("a"), Some("a"), true, map[])))
  const WRITTEN: Client := CAUGHT_UP.(local := Some("x"))
  const MERGED: Stage := Merging(Request.Put(false, 4, "x", map["A" := 1]), 4, "x")

  /** Up to the return of the file: the client records the tombstone and keeps the base "a". */
  lemma UpToTheReturn()
    ensures At(After(DeleteAndRestore(), 4), Stored(BACK, 4), Node(CAUGHT_UP, Idle), LogOf4())
  {
    hide Protocol.Run, After, At;
    var steps, log, n := DeleteAndRestore(), LogOf4(), Node(FIRST, Idle);
    StartsAt(steps);
    assert log[..1] == [Entry(ONCE, Other)];
    Others(steps, 0, ONCE, n, log[..1]);
    assert log[..2] == log[..1] + [Entry(Stored(CHANGED, 2), Other)];
    Others(steps, 1, Stored(CHANGED, 2), n, log[..2]);
    assert log[..3] == log[..2] + [Entry(Stored(DROPPED, 3), Other)];
    Moves(steps, 2, Stored(DROPPED, 3), n, Node(CAUGHT_UP, Idle), log[..3]);
    Others(steps, 3, Stored(DROPPED, 3), Node(CAUGHT_UP, Idle), log[..3]);
    assert log == log[..3] + [Entry(Stored(BACK, 4), Other)];
  }

  lemma BaseUnchanged()
    ensures MergeFetched(WRITTEN, 4, "a", FINE) == (WRITTEN, Some("x"))
  {
  }

  /** After a tombstone a merge is committed whose base is not the text of the version that the client had
      recorded: the base is "a", two versions older, so the change to "b" and the return to "a" go unseen. */
  lemma MergeOverOldBase()
    ensures Start(Example(), OneClient()) && KeysDistinct(Example())
    ensures var p, log := Example(), Protocol.Run(Example(), OneClient(), DeleteAndRestore()).log;
            && |log| == 5
            && log[4].origin == AutoMerge(3, "a", "x", "A") && TextAt(p, log, 5) == "x"
            && TextAt(p, log, 3) == TextAt(p, log, 2) == "b" && !Live(log, 3)
  {
    hide Protocol.Run, After, Start, KeysDistinct, At;
    OneClientStarts();
    ExampleKeysDistinct();
    UpToTheReturn();
    BaseUnchanged();
    var steps, log, head := DeleteAndRestore(), LogOf4(), Stored(BACK, 4);
    Moves(steps, 4, head, Node(CAUGHT_UP, Idle), Node(WRITTEN, Idle), log);
    Uploads(steps, 5, head, Node(WRITTEN, Idle), log);
    Moves(steps, 6, head, Node(WRITTEN, Refused), Node(WRITTEN, Told(4, map[])), log);
    Moves(steps, 7, head, Node(WRITTEN, Told(4, map[])), Node(WRITTEN, MERGED), log);
    MergeIsAccepted(steps, 8, head, Node(WRITTEN, MERGED), log);
    Done(steps);
  }

  // ---- vectors that do not move on ----

  const NEXT := Rec("z", false, map["A" := 1])

  /** The client keeps its side of a conflict, and then uploads another edit. */
  function KeepAndGoOn(): seq<Step> {
    [Edit(0, Some("x")), CommitOther(THEIRS, 1), ApplyRemote(0), SendKeepLocal(0, UPLOAD), Receive(0),
     Edit(0, Some("z")), SendUpload(0, NEXT)]
  }

  /** Keeping the local side of a conflict commits a version whose vector is concurrent with that of the version it
      replaces: it is bumped from the one that the client had recorded. The client records it without its vector,
      so its next upload carries the very vector it replaces. */
  lemma KeptCopyIsConcurrent()
    ensures Start(Example(), OneClient()) && KeysDistinct(Example())
    ensures var log := Protocol.Run(Example(), OneClient(), KeepAndGoOn()).log;
            && |log| == 4 && TextAt(Example(), log, 3) == "x" && TextAt(Example(), log, 4) == "z"
            && V.ConcurrentOf(VectorAt(log, 3), VectorAt(log, 2)) && VectorAt(log, 4) == VectorAt(log, 3)
  {
    hide Protocol.Run, After, Start, KeysDistinct, V.ConcurrentOf;
    OneClientStarts();
    ExampleKeysDistinct();
    var steps, head := KeepAndGoOn(), Stored(THEIRS, 2);
    ConflictOpens(steps);
    CopyIsAccepted(steps, 3, head, Node(TORN, Idle), LogOf2());
    var log3 := LogOf2() + [Entry(Stored(UPLOAD, 3), DirectFrom(TORN))];
    var answered := Node(TORN, Answered(Resolve, KeepRequest(TORN), 3, false));
    var agreed := TORN.(record := Some(Record(3, Some("x"), Some("x"), false, map[])), shadow := "x", conflict := None);
    Moves(steps, 4, Stored(UPLOAD, 3), answered, Node(agreed, Idle), log3);
    var edited := Node(agreed.(local := Some("z")), Idle);
    Moves(steps, 5, Stored(UPLOAD, 3), Node(agreed, Idle), edited, log3);
    Uploads(steps, 6, Stored(UPLOAD, 3), edited, log3);
    Done(steps);
    TwoDevices();
  }

  lemma TwoDevices()
    ensures V.ConcurrentOf(map["A" := 1], map["B" := 1])
  {
    assert "A" in map["A" := 1] && "B" in map["B" := 1];
  }

  // ---- an answer from memory ----

  const SAME := Rec("x", false, map["B" := 1])

  /** Another device uploads the same text over the same version first, and its answer is saved. */
  function SameEditTwice(): seq<Step> {
    [Edit(0, Some("x")), CommitOther(SAME, 1), SaveAnswer(2), ReplayUpload(0), Receive(0)]
  }

  lemma AnswerIsSaved(steps: seq<Step>, k: nat, head: FileRecord, n: Node, log: seq<Entry>)
    requires k < |steps| && At(After(steps, k), head, n, log) && steps[k] == SaveAnswer(|log|)
    requires |log| >= 2 && log[|log| - 1].record == head && !head.deleted
    ensures At(After(steps, k + 1), head, n, log)
    ensures SavedAnswer(Example(), After(steps, k + 1), |log| - 1, head.contentHash) == Some(head)
  {
    hide Protocol.Run, J.Decimal;
    RunOneMore(OneClient(), steps, k);
  }

  lemma IsReplayed(steps: seq<Step>, k: nat, head: FileRecord, n: Node, log: seq<Entry>)
    requires k < |steps| && At(After(steps, k), head, n, log) && steps[k] == ReplayUpload(0) && CanUpload(n)
    requires var sent := UploadRequest(n.client);
             SavedAnswer(Example(), After(steps, k), sent.base, sent.text) == Some(head)
    ensures var answered := Answered(Upload, UploadRequest(n.client), head.version, true);
            At(After(steps, k + 1), head, n.(stage := answered), log)
  {
    hide Protocol.Run, SavedAnswer, V.Bump;
    RunOneMore(OneClient(), steps, k);
  }

  /** The client takes the version that another device committed for its own, and records its own vector for it: one
      that is concurrent with the vector that was committed. */
  lemma ReplayRecordsOwnVector()
    ensures Start(Example(), OneClient()) && KeysDistinct(Example())
    ensures var s := Protocol.Run(Example(), OneClient(), SameEditTwice());
            && 0 in s.nodes && |s.log| == 2
            && s.nodes[0].client.record == Some(Record(2, Some("x"), Some("x"), false, map["A" := 1]))
            && V.ConcurrentOf(map["A" := 1], VectorAt(s.log, 2))
  {
    hide Protocol.Run, After, Start, KeysDistinct, SavedAnswer, V.ConcurrentOf;
    OneClientStarts();
    ExampleKeysDistinct();
    var steps, log, head := SameEditTwice(), [Entry(ONCE, Other)], Stored(SAME, 2);
    var edited := Node(FIRST.(local := Some("x")), Idle);
    var log2 := log + [Entry(head, Other)];
    StartsAt(steps);
    Moves(steps, 0, ONCE, Node(FIRST, Idle), edited, log);
    Others(steps, 1, ONCE, edited, log);
    AnswerIsSaved(steps, 2, head, edited, log2);
    IsReplayed(steps, 3, head, edited, log2);
    var answered := edited.(stage := Answered(Upload, UploadRequest(edited.client), 2, true));
    var agreed := edited.client.(record := Some(Record(2, Some("x"), Some("x"), false, map["A" := 1])), shadow := "x");
    Moves(steps, 4, head, answered, Node(agreed, Idle), log2);
    Done(steps);
    TwoDevices();
  }
}
