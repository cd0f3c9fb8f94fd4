/** Any number of clients sync one file through the server, interleaved at its store operations. */
module Protocol {
  import opened Basics
  import opened Store
  import opened SyncClient
  import Merge
  import V = VersionVectors

  type ClientId = nat

  /** The file under study, what a ciphertext hash decrypts to, and how upload retries are keyed. */
  datatype Setting = Setting(key: Key, plain: string -> Text, idemKey: (int, Text) -> string)

  /** Retry keys tell base version and text apart. */
  ghost predicate KeysDistinct(p: Setting) {
    forall b, t, b', t' :: p.idemKey(b, t) == p.idemKey(b', t') ==> b == b' && t == t'
  }

  /** Where a client stands in its current exchange with the server. */
  datatype Stage =
    | Idle
    | Refused                                   // the upload was refused; the answer is not read yet
    | Told(current: int, vector: V.Vector)      // the refusal names the head and its vector
    | Merging(sent: Request, fetched: int, local: Text)  // the merge with the fetched head is on disk, not yet sent
    | Answered(flow: Flow, sent: Request, version: int, replayed: bool)  // `sent` is accepted, or was, as `version`

  /** What an accepted upload was for; a merge still holds the local text it went into. */
  datatype Flow = Upload | ConflictMerge(local: Text) | Resolve

  datatype Node = Node(client: Client, stage: Stage)

  /** How a version came about. A plain upload remembers the vector its client had recorded; a merge remembers
      what it merged and the version its base was recorded as. */
  datatype Origin =
    | Direct(known: V.Vector, device: string)
    | AutoMerge(recorded: int, base: Text, local: Text, device: string)
    | Other

  datatype Entry = Entry(record: FileRecord, origin: Origin)

  /** `log` holds every version ever committed of the file, version 1 first. */
  datatype State = State(store: Data, nodes: map<ClientId, Node>, log: seq<Entry>)

  datatype Step =
    | Edit(c: ClientId, text: Option<Text>)
    | SendUpload(c: ClientId, rec: FileRecord)
    | ReplayUpload(c: ClientId)
    | ReadRefusal(c: ClientId)
    | FetchAndMerge(c: ClientId)
    | SendMerge(c: ClientId, rec: FileRecord)
    | ReplayMerge(c: ClientId)
    | SendKeepLocal(c: ClientId, rec: FileRecord)
    | ReplayKeepLocal(c: ClientId)
    | Receive(c: ClientId)
    | Drop(c: ClientId)
    | TakeRemote(c: ClientId, aside: Option<string>)
    | ApplyRemote(c: ClientId)
    | Forget(c: ClientId)
    | Open(c: ClientId)
    | CommitOther(rec: FileRecord, baseVersion: int)
    | SaveAnswer(version: int)
    | Elsewhere(op: Op)

  // ---- steps ----

  function TextOf(p: Setting, f: FileRecord): Text { p.plain(f.contentHash) }

  /** A record that carries what was sent for the file under study. */
  predicate Carries(p: Setting, rec: FileRecord, sent: Request) {
    rec.key == p.key && !rec.deleted && TextOf(p, rec) == sent.text && rec.vector == sent.vector
  }

  function HeadOf(p: Setting, s: State): HeadReply {
    if p.key !in s.store.files then Unreadable
    else
      var f := s.store.files[p.key];
      if f.deleted then Tombstone(f.version) else Head(f.version, TextOf(p, f), f.vector)
  }

  function SavedAnswer(p: Setting, s: State, base: int, text: Text): Option<FileRecord> {
    var k := (p.key.account, p.idemKey(base, text));
    if k in s.store.idempotent then Some(s.store.idempotent[k]) else None
  }

  function SetNode(s: State, c: ClientId, n: Node): State { s.(nodes := s.nodes[c := n]) }

  /** One write at the server; an accepted one lands in the log and the client moves to `yes`. */
  function Write(s: State, c: ClientId, rec: FileRecord, base: int, origin: Origin, yes: Node, no: Node): State {
    var (d, r) := UpdateFile(s.store, rec, base);
    if r.Ok? then State(d, s.nodes[c := yes], s.log + [Entry(r.value, origin)])
    else SetNode(s, c, no)
  }

  ghost function Do(p: Setting, s: State, step: Step): State {
    match step
    case CommitOther(rec, baseVersion) =>
      var (d, r) := UpdateFile(s.store, rec, baseVersion);
      if rec.key == p.key && r.Ok? then State(d, s.nodes, s.log + [Entry(r.value, Other)]) else s
    case SaveAnswer(version) =>
      if 2 <= version <= |s.log| && !s.log[version - 1].record.deleted then
        var f := s.log[version - 1].record;
        s.(store := SaveResponse(s.store, p.key.account, p.idemKey(version - 1, TextOf(p, f)), f))
      else s
    case Elsewhere(op) =>
      if TouchesOthers(p, op) then s.(store := Apply(s.store, op)) else s
    case _ =>
      if step.c in s.nodes then DoClient(p, s, step, s.nodes[step.c]) else s
  }

  /** Store operations that leave the file's head and its upload answers alone. */
  ghost predicate TouchesOthers(p: Setting, op: Op) {
    match op
    case Create(rec) => rec.key != p.key
    case Update(rec, _) => rec.key != p.key
    case Prune(_, keep) => keep > 0
    case SaveIdempotent(account, key, _) => account != p.key.account || forall b, t :: p.idemKey(b, t) != key
  }

  /** The client has recorded a version of the file; otherwise it would upload under a new file id. */
  predicate Knows(c: Client) { c.record.Some? && c.record.value.version > 0 }

  /** An idle client that knows the file and has something to upload. */
  predicate CanUpload(n: Node) {
    n.stage == Idle && Knows(n.client) && n.client.local.Some? && !InSync(n.client)
  }

  function DirectFrom(c: Client): Origin { Direct(RecordedVector(c), c.device) }

  /** A repeated upload is answered with the saved record, if there is one. */
  function Replay(p: Setting, s: State, c: ClientId, n: Node, flow: Flow, sent: Request): State {
    var saved := SavedAnswer(p, s, sent.base, sent.text);
    if saved.Some? then SetNode(s, c, n.(stage := Answered(flow, sent, saved.value.version, true))) else s
  }

  function DoClient(p: Setting, s: State, step: Step, n: Node): State
    requires !step.CommitOther? && !step.SaveAnswer? && !step.Elsewhere? && step.c in s.nodes
  {
    var c, cl := step.c, n.client;
    match step
    case Edit(_, text) => SetNode(s, c, n.(client := cl.(local := text)))
    case SendUpload(_, rec) =>
      if CanUpload(n) && Carries(p, rec, UploadRequest(cl)) then
        var sent := UploadRequest(cl);
        Write(s, c, rec, sent.base, DirectFrom(cl),
              n.(stage := Answered(Upload, sent, sent.base + 1, false)), n.(stage := Refused))
      else s
    case ReplayUpload(_) =>
      if CanUpload(n) then Replay(p, s, c, n, Upload, UploadRequest(cl)) else s
    case ReadRefusal(_) =>
      if n.stage == Refused && p.key in s.store.files then
        SetNode(s, c, n.(stage := Told(s.store.files[p.key].version, s.store.files[p.key].vector)))
      else s
    case FetchAndMerge(_) =>
      if n.stage.Told? && HeadOf(p, s).Head? then
        var head := HeadOf(p, s);
        var (cl', merged) := MergeFetched(cl, n.stage.current, head.text, FINE);
        SetNode(s, c, Node(cl', if merged.None? then Idle
                                else Merging(MergeRequest(cl, n.stage.current, n.stage.vector, merged.value),
                                             head.version, LocalText(cl))))
      else s
    case SendMerge(_, rec) =>
      if n.stage.Merging? && Knows(cl) && Carries(p, rec, n.stage.sent) then
        var sent, local := n.stage.sent, n.stage.local;
        Write(s, c, rec, sent.base, AutoMerge(cl.record.value.version, cl.shadow, local, cl.device),
              n.(stage := Answered(ConflictMerge(local), sent, sent.base + 1, false)),
              Node(Preserve(cl, sent.base, FromUpload, local, FINE), Idle))
      else s
    case ReplayMerge(_) =>
      if n.stage.Merging? then Replay(p, s, c, n, ConflictMerge(n.stage.local), n.stage.sent) else s
    case SendKeepLocal(_, rec) =>
      if n.stage == Idle && CopyText(cl).Some? && Carries(p, rec, KeepRequest(cl)) then
        var sent, cl' := KeepRequest(cl), cl.(local := CopyText(cl));
        Write(s, c, rec, sent.base, DirectFrom(cl),
              Node(cl', Answered(Resolve, sent, sent.base + 1, false)), Node(cl', Idle))
      else s
    case ReplayKeepLocal(_) =>
      if n.stage == Idle && CopyText(cl).Some? then
        Replay(p, s, c, n.(client := cl.(local := CopyText(cl))), Resolve, KeepRequest(cl))
      else s
    case Receive(_) =>
      if n.stage.Answered? then SetNode(s, c, Node(Received(cl, n.stage), Idle)) else s
    case Drop(_) => SetNode(s, c, Node(Dropped(cl, n.stage), Idle))
    case TakeRemote(_, aside) =>
      if n.stage == Idle && cl.conflict.Some? then
        SetNode(s, c, n.(client := AfterKeepRemote(cl, aside, FINE, HeadOf(p, s)).client))
      else s
    case ApplyRemote(_) =>
      if n.stage == Idle then SetNode(s, c, n.(client := AfterApply(cl, HeadOf(p, s), false, FINE).0)) else s
    case Forget(_) =>
      if n.stage == Idle then SetNode(s, c, n.(client := cl.(record := None))) else s
    case Open(_) => SetNode(s, c, n.(client := AfterOpen(cl)))
  }

  /** The answer to an accepted write reaches the client. */
  function Received(cl: Client, st: Stage): Client
    requires st.Answered?
  {
    match st.flow
    case Upload => AfterUpload(cl, st.sent, st.version)
    case ConflictMerge(_) => AfterMerge(cl, st.sent, st.version)
    case Resolve => AfterKeep(cl, st.sent, st.version)
  }

  /** The exchange breaks off: an unanswered merge leaves its local text preserved in a conflict. */
  function Dropped(cl: Client, st: Stage): Client {
    match st
    case Merging(sent, _, local) => Preserve(cl, sent.base, FromUpload, local, FINE)
    case Answered(ConflictMerge(local), sent, _, _) => Preserve(cl, sent.base, FromUpload, local, FINE)
    case _ => cl
  }

  ghost function Run(p: Setting, s: State, steps: seq<Step>): State
    decreases |steps|
  {
    if steps == [] then s else Run(p, Do(p, s, steps[0]), steps[1..])
  }
}
