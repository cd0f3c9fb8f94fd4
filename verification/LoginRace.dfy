/** Any number of browser callbacks and plugin polls race on one sign-in session, interleaved at the
    store's operations. */
module LoginRace {
  import opened Basics
  import opened OAuth

  type Id = nat

  /** How far a callback has come. */
  datatype Callback =
    | Arrived
    | SawPending
    | Claimed(verifier: string)
    | Exchanged(account: AccountId)
    | Failing
    | Finished

  /** How far a poll has come; from `Holding` on it has consumed the session. */
  datatype Poll =
    | Asked(secretHash: string)
    | SawReady(account: AccountId)
    | Holding(account: AccountId)
    | LookedUp(account: AccountId)
    | Counted(account: AccountId)
    | GivingBack(account: AccountId)
    | Answered

  /** All sessions of the store, the requests on the one under study, and what they have done so far:
      code exchanges with the account each led to, and devices created with the account each belongs to. */
  datatype System = System(
    logins: Logins, callbacks: map<Id, Callback>, polls: map<Id, Poll>,
    exchanges: seq<Option<AccountId>>, devices: seq<AccountId>)

  datatype Step =
    | CallbackArrives(id: Id)
    | CallbackReads(id: Id, now: int)
    | CallbackClaims(id: Id, now: int)
    | CallbackDenied(id: Id)
    | CallbackExchanges(id: Id, result: Option<AccountId>)
    | CallbackMarksReady(id: Id)
    | CallbackMarksError(id: Id, code: string)
    | CallbackDies(id: Id)
    | PollArrives(id: Id, secretHash: string)
    | PollReads(id: Id, now: int)
    | PollConsumes(id: Id)
    | PollLooksUp(id: Id, ok: bool)
    | PollCounts(id: Id, ok: bool)
    | PollCreatesDevice(id: Id, ok: bool)
    | PollReopens(id: Id)
    | PollDies(id: Id)
    | Elsewhere(op: Op)

  /** A store operation on some session. */
  datatype Op =
    | OpCreate(state: string, login: Login, now: int)
    | OpClaim(state: string, now: int)
    | OpReady(state: string, account: AccountId)
    | OpError(state: string, code: string)
    | OpConsume(state: string)
    | OpReopen(state: string)

  function Apply(m: Logins, op: Op): Logins {
    match op
    case OpCreate(state, login, now) => CreateLogin(m, state, login, now).0
    case OpClaim(state, now) => Claim(m, state, now).0
    case OpReady(state, account) => MarkReady(m, state, account).0
    case OpError(state, code) => MarkError(m, state, code).0
    case OpConsume(state) => Consume(m, state).0
    case OpReopen(state) => Reopen(m, state).0
  }

  // ---- steps ----

  function SetCallback(s: System, id: Id, cb: Callback): System { s.(callbacks := s.callbacks[id := cb]) }

  function SetPoll(s: System, id: Id, p: Poll): System { s.(polls := s.polls[id := p]) }

  function Do(k: string, s: System, step: Step): System {
    match step
    case CallbackArrives(id) => if id in s.callbacks then s else SetCallback(s, id, Arrived)
    case PollArrives(id, secretHash) => if id in s.polls then s else SetPoll(s, id, Asked(secretHash))
    case Elsewhere(op) => if op.state != k then s.(logins := Apply(s.logins, op)) else s
    case CallbackReads(id, _) => if id in s.callbacks then DoCallback(k, s, step, s.callbacks[id]) else s
    case CallbackClaims(id, _) => if id in s.callbacks then DoCallback(k, s, step, s.callbacks[id]) else s
    case CallbackDenied(id) => if id in s.callbacks then DoCallback(k, s, step, s.callbacks[id]) else s
    case CallbackExchanges(id, _) => if id in s.callbacks then DoCallback(k, s, step, s.callbacks[id]) else s
    case CallbackMarksReady(id) => if id in s.callbacks then DoCallback(k, s, step, s.callbacks[id]) else s
    case CallbackMarksError(id, _) => if id in s.callbacks then DoCallback(k, s, step, s.callbacks[id]) else s
    case CallbackDies(id) => if id in s.callbacks then DoCallback(k, s, step, s.callbacks[id]) else s
    case _ => if step.id in s.polls then DoPoll(k, s, step, s.polls[step.id]) else s
  }

  function DoCallback(k: string, s: System, step: Step, cb: Callback): System
    requires !step.Elsewhere?
  {
    var id := step.id;
    match step
    case CallbackReads(_, now) =>
      if cb != Arrived then s
      else if k in s.logins && now <= s.logins[k].expiresAt && s.logins[k].status == Pending then
        SetCallback(s, id, SawPending)
      else SetCallback(s, id, Finished)
    case CallbackClaims(_, now) =>
      if cb != SawPending then s
      else
        var (m, r) := Claim(s.logins, k, now);
        SetCallback(s, id, if r.Some? then Claimed(r.value.verifier) else Finished).(logins := m)
    case CallbackDenied(_) => if cb.Claimed? then SetCallback(s, id, Failing) else s
    case CallbackExchanges(_, result) =>
      if !cb.Claimed? || cb.verifier == "" then s
      else
        SetCallback(s, id, if result.Some? then Exchanged(result.value) else Failing)
          .(exchanges := s.exchanges + [result])
    case CallbackMarksReady(_) =>
      if !cb.Exchanged? then s
      else
        var (m, ok) := MarkReady(s.logins, k, cb.account);
        SetCallback(s, id, if ok then Finished else Failing).(logins := m)
    case CallbackMarksError(_, code) =>
      if cb != Failing then s else SetCallback(s, id, Finished).(logins := MarkError(s.logins, k, code).0)
    case _ => SetCallback(s, id, Finished)
  }

  function DoPoll(k: string, s: System, step: Step, p: Poll): System
    requires !step.Elsewhere?
  {
    var id := step.id;
    match step
    case PollReads(_, now) =>
      if !p.Asked? then s
      else if && k in s.logins && s.logins[k].pollSecretHash == p.secretHash
              && now <= s.logins[k].expiresAt && s.logins[k].status == Ready
      then SetPoll(s, id, SawReady(s.logins[k].accountId))
      else SetPoll(s, id, Answered)
    case PollConsumes(_) =>
      if !p.SawReady? then s
      else
        var (m, ok) := Consume(s.logins, k);
        SetPoll(s, id, if ok then Holding(p.account) else Answered).(logins := m)
    case PollLooksUp(_, ok) =>
      if !p.Holding? then s else SetPoll(s, id, if ok then LookedUp(p.account) else GivingBack(p.account))
    case PollCounts(_, ok) =>
      if !p.LookedUp? then s else SetPoll(s, id, if ok then Counted(p.account) else GivingBack(p.account))
    case PollCreatesDevice(_, ok) =>
      if !p.Counted? then s
      else if ok then SetPoll(s, id, Answered).(devices := s.devices + [p.account])
      else SetPoll(s, id, GivingBack(p.account))
    case PollReopens(_) =>
      if !p.GivingBack? then s else SetPoll(s, id, Answered).(logins := Reopen(s.logins, k).0)
    case _ => SetPoll(s, id, Answered)
  }

  function Run(k: string, s: System, steps: seq<Step>): System
    decreases |steps|
  {
    if steps == [] then s else Run(k, Do(k, s, steps[0]), steps[1..])
  }

  // ---- the invariant ----

  predicate Busy(cb: Callback) { cb.Claimed? || cb.Exchanged? || cb.Failing? }

  predicate Holder(p: Poll) { p.Holding? || p.LookedUp? || p.Counted? || p.GivingBack? }

  ghost predicate NoneBusy(s: System) { forall c <- s.callbacks :: !Busy(s.callbacks[c]) }

  ghost predicate NoneHolds(s: System) { forall q <- s.polls :: !Holder(s.polls[q]) }

  ghost predicate NoneSawReady(s: System) { forall q <- s.polls :: !s.polls[q].SawReady? }

  ghost predicate OneBusy(s: System) {
    forall c, d :: c in s.callbacks && d in s.callbacks && Busy(s.callbacks[c]) && Busy(s.callbacks[d]) ==> c == d
  }

  ghost predicate OneHolder(s: System) {
    forall q, r :: q in s.polls && r in s.polls && Holder(s.polls[q]) && Holder(s.polls[r]) ==> q == r
  }

  predicate CallbackOk(k: string, s: System, cb: Callback) {
    && (cb.Claimed? ==> s.exchanges == [])
    && (cb.Exchanged? ==> s.exchanges == [Some(cb.account)])
    && (Busy(cb) && k in s.logins ==> s.logins[k].status == Exchanging)
  }

  predicate PollOk(k: string, s: System, p: Poll) {
    && (p.SawReady? || Holder(p) ==> s.exchanges == [Some(p.account)])
    && (Holder(p) ==> s.devices == [] && (k in s.logins ==> s.logins[k].status == Consumed))
  }

  /** What the session's status says about the requests and about what was done. */
  ghost predicate SessionOk(s: System, l: Login) {
    && (l.status != Consumed ==> s.devices == [] && NoneHolds(s))
    && (l.status != Exchanging ==> NoneBusy(s))
    && (l.status == Pending ==> s.exchanges == [])
    && (l.status.Pending? || l.status.Exchanging? || l.status.Error? ==> NoneSawReady(s))
    && (l.status == Ready || l.status == Consumed ==> s.exchanges == [Some(l.accountId)])
    && (l.status != Pending && l.status != Exchanging ==> l.verifier == "")
  }

  ghost predicate HistoryOk(s: System) {
    && |s.exchanges| <= 1 && |s.devices| <= 1
    && (s.devices != [] ==> s.exchanges == [Some(s.devices[0])] && NoneHolds(s))
  }

  ghost predicate Inv(k: string, s: System) {
    && OneBusy(s) && OneHolder(s) && HistoryOk(s)
    && (forall c <- s.callbacks :: CallbackOk(k, s, s.callbacks[c]))
    && (forall q <- s.polls :: PollOk(k, s, s.polls[q]))
    && (k in s.logins ==> SessionOk(s, s.logins[k]))
  }

  // ---- every step keeps it ----

  /** A callback's move that changes nothing else, and does not make it busy. */
  lemma CallbackMoves(k: string, s: System, id: Id, cb: Callback)
    requires Inv(k, s) && CallbackOk(k, s, cb)
    requires Busy(cb) ==> id in s.callbacks && Busy(s.callbacks[id])
    ensures Inv(k, SetCallback(s, id, cb))
  {
    hide CallbackOk, PollOk;
    var s' := SetCallback(s, id, cb);
    assert forall c <- s'.callbacks :: CallbackOk(k, s, s'.callbacks[c]) && CallbackOk(k, s', s'.callbacks[c]) by {
      SameCallbacks(k, s, s');
    }
    SamePolls(k, s, s');
  }

  lemma SameCallbacks(k: string, s: System, s': System)
    requires s'.logins == s.logins && s'.exchanges == s.exchanges
    ensures forall cb :: CallbackOk(k, s, cb) == CallbackOk(k, s', cb)
  {
  }

  lemma SamePolls(k: string, s: System, s': System)
    requires s'.logins == s.logins && s'.exchanges == s.exchanges && s'.devices == s.devices
    ensures forall p :: PollOk(k, s, p) == PollOk(k, s', p)
  {
  }

  /** A poll's move that changes nothing else, and does not make it a holder. */
  lemma PollMoves(k: string, s: System, id: Id, p: Poll)
    requires Inv(k, s) && PollOk(k, s, p)
    requires Holder(p) ==> id in s.polls && Holder(s.polls[id])
    requires p.SawReady? ==> k in s.logins && s.logins[k].status == Ready
    ensures Inv(k, SetPoll(s, id, p))
  {
    hide CallbackOk, PollOk;
    var s' := SetPoll(s, id, p);
    SameCallbacks(k, s, s');
    SamePolls(k, s, s');
    if k in s.logins {
      assert SessionOk(s', s.logins[k]);
    }
  }

  lemma ClaimKeeps(k: string, s: System, step: Step, id: Id)
    requires Inv(k, s) && step.CallbackClaims? && step.id == id && id in s.callbacks
    ensures Inv(k, DoCallback(k, s, step, s.callbacks[id]))
  {
  }

  lemma ExchangeKeeps(k: string, s: System, step: Step, id: Id)
    requires Inv(k, s) && step.CallbackExchanges? && step.id == id && id in s.callbacks
    ensures Inv(k, DoCallback(k, s, step, s.callbacks[id]))
  {
  }

  lemma MarkReadyKeeps(k: string, s: System, step: Step, id: Id)
    requires Inv(k, s) && step.CallbackMarksReady? && step.id == id && id in s.callbacks
    ensures Inv(k, DoCallback(k, s, step, s.callbacks[id]))
  {
  }

  lemma MarkErrorKeeps(k: string, s: System, step: Step, id: Id)
    requires Inv(k, s) && step.CallbackMarksError? && step.id == id && id in s.callbacks
    ensures Inv(k, DoCallback(k, s, step, s.callbacks[id]))
  {
  }

  lemma CallbackKeeps(k: string, s: System, step: Step, id: Id)
    requires Inv(k, s) && !step.Elsewhere? && step.id == id && id in s.callbacks
    ensures Inv(k, DoCallback(k, s, step, s.callbacks[id]))
  {
    hide Inv, MarkReady, MarkError, Claim;
    CallbackIsOk(k, s, id);
    match step
    case CallbackReads(_, _) =>
      CallbackMoves(k, s, id, SawPending);
      CallbackMoves(k, s, id, Finished);
    case CallbackClaims(_, _) => ClaimKeeps(k, s, step, id);
    case CallbackDenied(_) =>
      if s.callbacks[id].Claimed? {
        CallbackMoves(k, s, id, Failing);
      }
    case CallbackExchanges(_, _) => ExchangeKeeps(k, s, step, id);
    case CallbackMarksReady(_) => MarkReadyKeeps(k, s, step, id);
    case CallbackMarksError(_, _) => MarkErrorKeeps(k, s, step, id);
    case _ => CallbackMoves(k, s, id, Finished);
  }

  lemma CallbackIsOk(k: string, s: System, id: Id)
    requires Inv(k, s) && id in s.callbacks
    ensures CallbackOk(k, s, s.callbacks[id])
  {
  }

  lemma ConsumeKeeps(k: string, s: System, step: Step, id: Id)
    requires Inv(k, s) && step.PollConsumes? && step.id == id && id in s.polls
    ensures Inv(k, DoPoll(k, s, step, s.polls[id]))
  {
  }

  lemma CreateKeeps(k: string, s: System, step: Step, id: Id)
    requires Inv(k, s) && step.PollCreatesDevice? && step.id == id && id in s.polls
    ensures Inv(k, DoPoll(k, s, step, s.polls[id]))
  {
  }

  lemma ReopenKeeps(k: string, s: System, step: Step, id: Id)
    requires Inv(k, s) && step.PollReopens? && step.id == id && id in s.polls
    ensures Inv(k, DoPoll(k, s, step, s.polls[id]))
  {
  }

  lemma PollKeeps(k: string, s: System, step: Step, id: Id)
    requires Inv(k, s) && !step.Elsewhere? && step.id == id && id in s.polls
    ensures Inv(k, DoPoll(k, s, step, s.polls[id]))
  {
    hide Inv, Consume, Reopen;
    PollIsOk(k, s, id);
    var p := s.polls[id];
    match step
    case PollReads(_, _) =>
      if k in s.logins && s.logins[k].status == Ready {
        PollMoves(k, s, id, SawReady(s.logins[k].accountId));
      }
      PollMoves(k, s, id, Answered);
    case PollConsumes(_) => ConsumeKeeps(k, s, step, id);
    case PollLooksUp(_, ok) =>
      if p.Holding? {
        PollMoves(k, s, id, if ok then LookedUp(p.account) else GivingBack(p.account));
      }
    case PollCounts(_, ok) =>
      if p.LookedUp? {
        PollMoves(k, s, id, if ok then Counted(p.account) else GivingBack(p.account));
      }
    case PollCreatesDevice(_, _) => CreateKeeps(k, s, step, id);
    case PollReopens(_) => ReopenKeeps(k, s, step, id);
    case _ => PollMoves(k, s, id, Answered);
  }

  lemma PollIsOk(k: string, s: System, id: Id)
    requires Inv(k, s) && id in s.polls
    ensures PollOk(k, s, s.polls[id])
    ensures k in s.logins && s.logins[k].status == Ready ==> s.exchanges == [Some(s.logins[k].accountId)]
  {
  }

  lemma ElsewhereKeeps(k: string, s: System, op: Op)
    requires Inv(k, s)
    ensures Inv(k, Do(k, s, Elsewhere(op)))
  {
  }

  lemma ArrivalKeeps(k: string, s: System, step: Step)
    requires Inv(k, s) && (step.CallbackArrives? || step.PollArrives?)
    ensures Inv(k, Do(k, s, step))
  {
    hide Inv;
    match step
    case CallbackArrives(id) => CallbackMoves(k, s, id, Arrived);
    case PollArrives(id, secretHash) => PollMoves(k, s, id, Asked(secretHash));
  }

  lemma DoKeeps(k: string, s: System, step: Step)
    requires Inv(k, s)
    ensures Inv(k, Do(k, s, step))
  {
    hide Inv, DoCallback, DoPoll;
    match step
    case Elsewhere(op) => ElsewhereKeeps(k, s, op);
    case CallbackArrives(_) => ArrivalKeeps(k, s, step);
    case PollArrives(_, _) => ArrivalKeeps(k, s, step);
    case _ =>
      if step.id in s.callbacks {
        CallbackKeeps(k, s, step, step.id);
      }
      if step.id in s.polls {
        PollKeeps(k, s, step, step.id);
      }
  }

  lemma {:induction false} RunKeeps(k: string, s: System, steps: seq<Step>)
    requires Inv(k, s)
    ensures Inv(k, Run(k, s, steps))
    decreases |steps|
  {
    hide Inv, Do;
    if steps != [] {
      DoKeeps(k, s, steps[0]);
      RunKeeps(k, Do(k, s, steps[0]), steps[1..]);
    }
  }

  // ---- what that means ----

  /** The session has just been created; nobody has asked about it. */
  predicate JustCreated(k: string, s: System) {
    && k in s.logins && s.logins[k].status == Pending
    && s.callbacks == map[] && s.polls == map[] && s.exchanges == [] && s.devices == []
  }

  /** Whatever callbacks and polls race on a session, and however they fail or die, its code is exchanged
      at most once and at most one device comes of it, owned by the account of that one exchange. */
  lemma OneExchangeOneDevice(k: string, s0: System, steps: seq<Step>)
    requires JustCreated(k, s0)
    ensures var s := Run(k, s0, steps);
            && |s.exchanges| <= 1 && |s.devices| <= 1
            && (s.devices != [] ==> s.exchanges == [Some(s.devices[0])])
  {
    RunKeeps(k, s0, steps);
  }

  /** A settled session holds no code verifier, a signed-in one names the account of the exchange, and one
      that has its device never becomes ready again. */
  lemma SettledSessions(k: string, s0: System, steps: seq<Step>)
    requires JustCreated(k, s0)
    ensures var s := Run(k, s0, steps);
            k in s.logins ==>
              var l := s.logins[k];
              && (l.status.Ready? || l.status.Error? || l.status.Consumed? ==> l.verifier == "")
              && (l.status.Ready? || l.status.Consumed? ==> s.exchanges == [Some(l.accountId)])
              && (s.devices != [] ==> l.status == Consumed)
  {
    RunKeeps(k, s0, steps);
  }

  /** At any time at most one callback may exchange the code and at most one poll may create a device. */
  lemma OneAtATime(k: string, s0: System, steps: seq<Step>, a: Id, b: Id)
    requires JustCreated(k, s0)
    ensures var s := Run(k, s0, steps);
            && (a in s.callbacks && b in s.callbacks && Busy(s.callbacks[a]) && Busy(s.callbacks[b]) ==> a == b)
            && (a in s.polls && b in s.polls && Holder(s.polls[a]) && Holder(s.polls[b]) ==> a == b)
  {
    RunKeeps(k, s0, steps);
  }

  // ---- one request at a time ----

  /** What comes of a callback's code: Google reported an error, sent no code, the code led to nothing,
      or it led to an account. */
  datatype Answer = Denied | NoCode | Failed(code: string) | SignedIn(account: AccountId)

  /** A callback: when it reads the session, when it claims it, and what comes of its code. */
  datatype Visit = Visit(readAt: int, claimedAt: int, answer: Answer)

  /** The error a callback leaves in a session it claimed with this verifier. */
  function ErrorCode(a: Answer, verifier: string): string {
    if a.Denied? then "google_denied"
    else if a.NoCode? || verifier == "" then "invalid_request"
    else if a.Failed? then a.code
    else "internal"
  }

  /** A callback that nothing interleaves with. Steps that its progress rules out do nothing. */
  function CallbackScript(id: Id, v: Visit, verifier: string): seq<Step> {
    [CallbackArrives(id), CallbackReads(id, v.readAt), CallbackClaims(id, v.claimedAt),
     if v.answer.Denied? || v.answer.NoCode? then CallbackDenied(id)
     else CallbackExchanges(id, if v.answer.SignedIn? then Some(v.answer.account) else None),
     CallbackDenied(id), CallbackMarksReady(id), CallbackMarksError(id, ErrorCode(v.answer, verifier))]
  }

  /** A poll's secret, and whether its account is found, has room for a device, and gets one. */
  datatype Request = Request(secretHash: string, now: int, found: bool, room: bool, made: bool)

  /** A poll that nothing interleaves with. */
  function PollScript(id: Id, r: Request): seq<Step> {
    [PollArrives(id, r.secretHash), PollReads(id, r.now), PollConsumes(id), PollLooksUp(id, r.found),
     PollCounts(id, r.room), PollCreatesDevice(id, r.made), PollReopens(id)]
  }

  lemma SevenSteps(k: string, s: System, a: seq<Step>)
    requires |a| == 7
    ensures Run(k, s, a)
            == Do(k, Do(k, Do(k, Do(k, Do(k, Do(k, Do(k, s, a[0]), a[1]), a[2]), a[3]), a[4]), a[5]), a[6])
  {
    hide Do;
    TwoSteps(k, s, a);
    var s2 := Do(k, Do(k, s, a[0]), a[1]);
    TwoSteps(k, s2, a[2..]);
    var s4 := Do(k, Do(k, s2, a[2]), a[3]);
    assert a[2..][2..] == a[4..];
    TwoSteps(k, s4, a[4..]);
    assert a[4..][2..] == a[6..] && a[6..][1..] == [];
  }

  lemma TwoSteps(k: string, s: System, a: seq<Step>)
    requires |a| >= 2
    ensures Run(k, s, a) == Run(k, Do(k, Do(k, s, a[0]), a[1]), a[2..])
  {
    hide Do;
    assert a[1..][1..] == a[2..];
  }

  /** What a poll by itself comes to. */
  function PollResult(k: string, m: Logins, r: Request): (Logins, seq<AccountId>) {
    if k !in m || m[k].pollSecretHash != r.secretHash || r.now > m[k].expiresAt || m[k].status != Ready then (m, [])
    else if r.found && r.room && r.made then (m[k := m[k].(status := Consumed, verifier := "")], [m[k].accountId])
    else (m[k := m[k].(verifier := "")], [])
  }

  lemma PollTakesReady(k: string, s: System, id: Id, r: Request)
    requires id !in s.polls && k in s.logins && s.logins[k].status == Ready
    requires s.logins[k].pollSecretHash == r.secretHash && r.now <= s.logins[k].expiresAt
    ensures var s', l := Do(k, Do(k, Do(k, s, PollArrives(id, r.secretHash)), PollReads(id, r.now)), PollConsumes(id)),
                       s.logins[k];
            && s'.logins == s.logins[k := l.(status := Consumed, verifier := "")] && s'.devices == s.devices
            && id in s'.polls && s'.polls[id] == Holding(l.accountId)
  {
    hide DoCallback, Apply;
    var s1 := Do(k, s, PollArrives(id, r.secretHash));
    assert s1.polls[id] == Asked(r.secretHash);
    var s2 := Do(k, s1, PollReads(id, r.now));
    assert s2.polls[id] == SawReady(s.logins[k].accountId);
  }

  lemma HolderFinishes(k: string, s: System, id: Id, r: Request)
    requires id in s.polls && s.polls[id].Holding? && k in s.logins && s.logins[k].status == Consumed
    ensures var s' := Do(k, Do(k, Do(k, Do(k, s, PollLooksUp(id, r.found)), PollCounts(id, r.room)),
                                  PollCreatesDevice(id, r.made)), PollReopens(id));
            if r.found && r.room && r.made then s'.devices == s.devices + [s.polls[id].account] && s'.logins == s.logins
            else s'.devices == s.devices && s'.logins == s.logins[k := s.logins[k].(status := Ready)]
  {
    hide DoCallback, Apply;
    var s1 := Do(k, s, PollLooksUp(id, r.found));
    var s2 := Do(k, s1, PollCounts(id, r.room));
    var s3 := Do(k, s2, PollCreatesDevice(id, r.made));
    assert s3.logins == s.logins;
    assert s3.polls[id] == if r.found && r.room && r.made then Answered else GivingBack(s.polls[id].account);
  }

  lemma AnsweredStays(k: string, s: System, id: Id, r: Request)
    requires id in s.polls && s.polls[id].Answered?
    ensures Do(k, Do(k, Do(k, Do(k, Do(k, s, PollConsumes(id)), PollLooksUp(id, r.found)), PollCounts(id, r.room)),
                     PollCreatesDevice(id, r.made)), PollReopens(id)) == s
  {
    hide DoCallback, Apply;
  }

  lemma PollTurnedAway(k: string, s: System, id: Id, r: Request)
    requires id !in s.polls
    requires !(&& k in s.logins && s.logins[k].status == Ready
               && s.logins[k].pollSecretHash == r.secretHash && r.now <= s.logins[k].expiresAt)
    ensures var s' := Do(k, Do(k, s, PollArrives(id, r.secretHash)), PollReads(id, r.now));
            s'.logins == s.logins && s'.devices == s.devices && id in s'.polls && s'.polls[id] == Answered
  {
    hide DoCallback, Apply;
    var s1 := Do(k, s, PollArrives(id, r.secretHash));
    assert s1.polls[id] == Asked(r.secretHash);
  }

  /** A poll that meets a ready session creates the device if nothing goes wrong; if its account is not
      found, has no room, or gets no device, the session is ready again. Any other poll changes nothing. */
  lemma PollAlone(k: string, s: System, id: Id, r: Request)
    requires id !in s.polls
    ensures var s', result := Run(k, s, PollScript(id, r)), PollResult(k, s.logins, r);
            s'.logins == result.0 && s'.devices == s.devices + result.1
  {
    hide Do, Run;
    SevenSteps(k, s, PollScript(id, r));
    if && k in s.logins && s.logins[k].status == Ready
       && s.logins[k].pollSecretHash == r.secretHash && r.now <= s.logins[k].expiresAt {
      PollTakesReady(k, s, id, r);
      var s3 := Do(k, Do(k, Do(k, s, PollArrives(id, r.secretHash)), PollReads(id, r.now)), PollConsumes(id));
      HolderFinishes(k, s3, id, r);
    } else {
      PollTurnedAway(k, s, id, r);
      AnsweredStays(k, Do(k, Do(k, s, PollArrives(id, r.secretHash)), PollReads(id, r.now)), id, r);
    }
  }

  /** A poll that failed after consuming gives the session back, and the next poll gets its device. */
  lemma FailedPollCanBeRepeated(k: string, s: System, failed: Id, id: Id, r: Request)
    requires Inv(k, s) && k in s.logins && failed in s.polls && s.polls[failed].GivingBack? && id !in s.polls
    requires s.logins[k].pollSecretHash == r.secretHash && r.now <= s.logins[k].expiresAt
    requires r.found && r.room && r.made
    ensures Run(k, s, [PollReopens(failed)] + PollScript(id, r)).devices == [s.polls[failed].account]
  {
    hide PollScript, DoCallback, Apply;
    var s1 := Do(k, s, PollReopens(failed));
    assert ([PollReopens(failed)] + PollScript(id, r))[1..] == PollScript(id, r);
    PollAlone(k, s1, id, r);
  }

  // ---- a callback by itself ----

  /** Whether a callback gets past reading the session and claiming it. */
  predicate Claims(k: string, m: Logins, v: Visit) {
    k in m && m[k].status == Pending && v.readAt <= m[k].expiresAt && v.claimedAt < m[k].expiresAt
  }

  function CallbackResult(k: string, m: Logins, v: Visit): (Logins, seq<Option<AccountId>>) {
    if !Claims(k, m, v) then (m, [])
    else
      var l := m[k];
      if v.answer.Denied? || v.answer.NoCode? || l.verifier == "" then
        (m[k := l.(status := Error, errorCode := ErrorCode(v.answer, l.verifier), verifier := "")], [])
      else if v.answer.Failed? then
        (m[k := l.(status := Error, errorCode := v.answer.code, verifier := "")], [None])
      else
        (m[k := l.(status := Ready, accountId := v.answer.account, errorCode := "", verifier := "")],
         [Some(v.answer.account)])
  }

  lemma CallbackClaimsIt(k: string, s: System, id: Id, v: Visit)
    requires id !in s.callbacks && Claims(k, s.logins, v)
    ensures var read := Do(k, Do(k, s, CallbackArrives(id)), CallbackReads(id, v.readAt));
            var s' := Do(k, read, CallbackClaims(id, v.claimedAt));
            && s'.logins == s.logins[k := s.logins[k].(status := Exchanging)] && s'.exchanges == s.exchanges
            && id in s'.callbacks && s'.callbacks[id] == Claimed(s.logins[k].verifier)
  {
    hide DoPoll, Apply;
    var s1 := Do(k, s, CallbackArrives(id));
    assert s1.callbacks[id] == Arrived;
    var s2 := Do(k, s1, CallbackReads(id, v.readAt));
    assert s2.callbacks[id] == SawPending;
  }

  lemma CallbackTurnedAway(k: string, s: System, id: Id, v: Visit)
    requires id !in s.callbacks && !Claims(k, s.logins, v)
    ensures var read := Do(k, Do(k, s, CallbackArrives(id)), CallbackReads(id, v.readAt));
            var s' := Do(k, read, CallbackClaims(id, v.claimedAt));
            && s'.logins == s.logins && s'.exchanges == s.exchanges
            && id in s'.callbacks && s'.callbacks[id] == Finished
  {
    hide DoPoll, Apply;
    var s1 := Do(k, s, CallbackArrives(id));
    assert s1.callbacks[id] == Arrived;
    var s2 := Do(k, s1, CallbackReads(id, v.readAt));
    assert s2.callbacks[id] == SawPending || s2.callbacks[id] == Finished;
  }

  /** The last four steps of a callback's script. */
  function Settle(k: string, s: System, script: seq<Step>): System
    requires |script| == 7
  {
    Do(k, Do(k, Do(k, Do(k, s, script[3]), script[4]), script[5]), script[6])
  }

  lemma FinishedStays(k: string, s: System, id: Id, v: Visit, verifier: string)
    requires id in s.callbacks && s.callbacks[id] == Finished
    ensures Settle(k, s, CallbackScript(id, v, verifier)) == s
  {
    hide DoPoll, Apply, ErrorCode;
  }

  lemma ClaimedSettles(k: string, s: System, id: Id, v: Visit)
    requires id in s.callbacks && s.callbacks[id].Claimed? && k in s.logins && s.logins[k].status == Exchanging
    ensures var l, verifier := s.logins[k], s.callbacks[id].verifier;
            var s' := Settle(k, s, CallbackScript(id, v, verifier));
            if v.answer.Denied? || v.answer.NoCode? || verifier == "" then
              && s'.logins == s.logins[k := l.(status := Error, errorCode := ErrorCode(v.answer, verifier),
                                               verifier := "")]
              && s'.exchanges == s.exchanges
            else if v.answer.Failed? then
              && s'.logins == s.logins[k := l.(status := Error, errorCode := v.answer.code, verifier := "")]
              && s'.exchanges == s.exchanges + [None]
            else
              && s'.logins == s.logins[k := l.(status := Ready, accountId := v.answer.account,
                                               errorCode := "", verifier := "")]
              && s'.exchanges == s.exchanges + [Some(v.answer.account)]
  {
    hide DoPoll, Apply;
    var script := CallbackScript(id, v, s.callbacks[id].verifier);
    var s1 := Do(k, s, script[3]);
    var s2 := Do(k, s1, script[4]);
    assert s2.logins == s.logins;
    assert s2.callbacks[id] == if !v.answer.SignedIn? || s.callbacks[id].verifier == "" then Failing
                               else Exchanged(v.answer.account);
    var s3 := Do(k, s2, script[5]);
    assert s3.callbacks[id] == if !v.answer.SignedIn? || s.callbacks[id].verifier == "" then Failing else Finished;
  }

  /** A callback by itself claims a pending session and settles it as ready or failed; any other changes nothing. */
  lemma CallbackAlone(k: string, s: System, id: Id, v: Visit)
    requires id !in s.callbacks
    ensures var verifier := if k in s.logins then s.logins[k].verifier else "";
            var s', result := Run(k, s, CallbackScript(id, v, verifier)), CallbackResult(k, s.logins, v);
            s'.logins == result.0 && s'.exchanges == s.exchanges + result.1
  {
    hide Do, Run;
    var verifier := if k in s.logins then s.logins[k].verifier else "";
    SevenSteps(k, s, CallbackScript(id, v, verifier));
    var s3 := Do(k, Do(k, Do(k, s, CallbackArrives(id)), CallbackReads(id, v.readAt)), CallbackClaims(id, v.claimedAt));
    if Claims(k, s.logins, v) {
      CallbackClaimsIt(k, s, id, v);
      ClaimedSettles(k, s3, id, v);
    } else {
      CallbackTurnedAway(k, s, id, v);
      FinishedStays(k, s3, id, v, verifier);
    }
  }
}
