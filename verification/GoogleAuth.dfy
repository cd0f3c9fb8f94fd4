/** The sign-in sessions updated in place, and the two request handlers that move them. */
module GoogleAuth {
  import opened Basics
  import opened OAuth
  import opened LoginRace
  import RateLimit

  /** The store's session methods; each runs under the store's lock. */
  class LoginStore {
    var oauth: Logins

    constructor ()
      ensures oauth == map[]
    {
      oauth := map[];
    }

    method PurgeExpired(now: int)
      modifies this
      ensures oauth == Purge(old(oauth), now)
      ensures forall state :: state in oauth <==> state in old(oauth) && now - old(oauth)[state].expiresAt <= 86_400
    {
      var cutoff := now - KEEP_EXPIRED;
      var todo := oauth.Keys;
      while todo != {}
        invariant todo <= oauth.Keys <= old(oauth).Keys
        invariant forall state <- oauth :: oauth[state] == old(oauth)[state]
        invariant forall state <- old(oauth) ::
                    state in oauth || old(oauth)[state].expiresAt < cutoff
        invariant forall state <- oauth :: state in todo || oauth[state].expiresAt >= cutoff
        decreases todo
      {
        var state :| state in todo;
        if oauth[state].expiresAt < cutoff {
          oauth := oauth - {state};
        }
        todo := todo - {state};
      }
    }

    method CreateOAuthLogin(state: string, login: Login, now: int) returns (ok: bool)
      modifies this
      ensures (oauth, ok) == CreateLogin(old(oauth), state, login, now)
    {
      PurgeExpired(now);
      if state in oauth {
        return false;
      }
      oauth := oauth[state := login];
      return true;
    }

    method OAuthLoginByState(state: string) returns (login: Option<Login>)
      ensures login == if state in oauth then Some(oauth[state]) else None
    {
      if state !in oauth {
        return None;
      }
      return Some(oauth[state]);
    }

    method ClaimOAuthLogin(state: string, now: int) returns (login: Option<Login>)
      modifies this
      ensures (oauth, login) == Claim(old(oauth), state, now)
    {
      if state !in oauth || oauth[state].status != Pending || now >= oauth[state].expiresAt {
        return None;
      }
      oauth := oauth[state := oauth[state].(status := Exchanging)];
      return Some(oauth[state]);
    }

    method MarkOAuthReady(state: string, accountId: AccountId) returns (ok: bool)
      modifies this
      ensures (oauth, ok) == MarkReady(old(oauth), state, accountId)
    {
      if state !in oauth || oauth[state].status != Exchanging {
        return false;
      }
      oauth := oauth[state := oauth[state].(status := Ready, accountId := accountId, verifier := "", errorCode := "")];
      return true;
    }

    method MarkOAuthError(state: string, code: string) returns (ok: bool)
      modifies this
      ensures (oauth, ok) == MarkError(old(oauth), state, code)
    {
      if state !in oauth || oauth[state].status != Exchanging {
        return false;
      }
      oauth := oauth[state := oauth[state].(status := Error, errorCode := code, verifier := "")];
      return true;
    }

    method ConsumeOAuthLogin(state: string) returns (ok: bool)
      modifies this
      ensures (oauth, ok) == Consume(old(oauth), state)
    {
      if state !in oauth || oauth[state].status != Ready {
        return false;
      }
      oauth := oauth[state := oauth[state].(status := Consumed, verifier := "")];
      return true;
    }

    method ReopenOAuthLogin(state: string) returns (ok: bool)
      modifies this
      ensures (oauth, ok) == Reopen(old(oauth), state)
    {
      if state !in oauth || oauth[state].status != Consumed {
        return false;
      }
      oauth := oauth[state := oauth[state].(status := Ready)];
      return true;
    }
  }

  datatype PollReply =
    | BadRequest
    | RateLimited
    | Unauthorized
    | Expired
    | Waiting
    | SignInFailed(code: string)
    | NoAccount
    | DeviceLimit
    | NoDevice
    | Tokens(account: AccountId)

  /** The session alone, with one request about to come in. */
  function Before(logins: Logins): System { System(logins, map[], map[], [], []) }

  class Server {
    const st: LoginStore
    const limiter: RateLimit.LoginLimiter
    const hash: string -> string
    var exchanges: seq<Option<AccountId>>
    var devices: seq<AccountId>

    constructor (st: LoginStore, limiter: RateLimit.LoginLimiter, hash: string -> string)
      ensures this.st == st && this.limiter == limiter && this.hash == hash && exchanges == [] && devices == []
    {
      this.st, this.limiter, this.hash := st, limiter, hash;
      exchanges, devices := [], [];
    }

    /** The browser comes back from Google. The result tells whether the page shown reports success. */
    method HandleGoogleCallback(state: string, v: Visit) returns (success: bool)
      modifies this`exchanges, st
      ensures state == "" ==> st.oauth == old(st.oauth) && exchanges == old(exchanges)
      ensures state != "" ==>
              var verifier := if state in old(st.oauth) then old(st.oauth)[state].verifier else "";
              var after := Run(state, Before(old(st.oauth)), CallbackScript(0, v, verifier));
              st.oauth == after.logins && exchanges == old(exchanges) + after.exchanges
      ensures success <==>
                && state != "" && state in old(st.oauth)
                && var l := old(st.oauth)[state];
                   && v.readAt <= l.expiresAt && l.status != Error
                   && (l.status == Pending && v.claimedAt < l.expiresAt ==> v.answer.SignedIn? && l.verifier != "")
      ensures success ==> state in st.oauth && st.oauth[state].status != Error
    {
      hide Run, Do, CallbackScript;
      if state == "" {
        return false;
      }
      CallbackAlone(state, Before(st.oauth), 0, v);
      var existing := st.OAuthLoginByState(state);
      if existing.None? || v.readAt > existing.value.expiresAt {
        return false;
      }
      if existing.value.status != Pending {
        return existing.value.status != Error;
      }
      var login := st.ClaimOAuthLogin(state, v.claimedAt);
      if login.None? {
        return true;
      }
      if v.answer.Denied? {
        var _ := st.MarkOAuthError(state, "google_denied");
        return false;
      }
      if v.answer.NoCode? || login.value.verifier == "" {
        var _ := st.MarkOAuthError(state, "invalid_request");
        return false;
      }
      exchanges := exchanges + [if v.answer.SignedIn? then Some(v.answer.account) else None];
      if v.answer.Failed? {
        var _ := st.MarkOAuthError(state, v.answer.code);
        return false;
      }
      // This fails only when the session is gone or settled, and then marking an error fails too.
      success := st.MarkOAuthReady(state, v.answer.account);
    }

    /** Nobody has such a session, or the secret is not its own. */
    predicate Rejects(state: string, pollSecret: string)
      reads this, st
    {
      state !in st.oauth || st.oauth[state].pollSecretHash != hash(pollSecret)
    }

    /** The plugin asks whether it is signed in; on success it gets the tokens of a new device. A poll that
        names no session or the wrong secret is answered as unauthorized, within the limit for `limitKey`. Of
        `r` only what befalls the poll beyond the store counts. */
    method HandleGooglePoll(state: string, pollSecret: string, limitKey: string, r: Request) returns (reply: PollReply)
      modifies this`devices, st, limiter
      ensures state == "" || pollSecret == "" ==>
                reply == BadRequest && st.oauth == old(st.oauth) && devices == old(devices)
      ensures state != "" && pollSecret != "" ==>
                var after := Run(state, Before(old(st.oauth)), PollScript(0, r.(secretHash := hash(pollSecret))));
                && st.oauth == after.logins && devices == old(devices) + after.devices
                && (if reply.Tokens? then after.devices == [reply.account] else after.devices == [])
      ensures var rejected := state != "" && pollSecret != "" && old(Rejects(state, pollSecret));
              var (buckets, allowed) := RateLimit.Allow(limiter.limits, old(limiter.buckets), limitKey, r.now);
              && limiter.buckets == (if rejected then buckets else old(limiter.buckets))
              && (rejected ==> reply == if allowed then Unauthorized else RateLimited)
              && (reply == RateLimited ==> rejected)
      ensures reply == BadRequest <==> state == "" || pollSecret == ""
      ensures state != "" && pollSecret != "" && !old(Rejects(state, pollSecret)) ==>
                var l := old(st.oauth)[state];
                var open, ready := r.now <= l.expiresAt, r.now <= l.expiresAt && l.status == Ready;
                && (reply == Expired <==> !open)
                && (reply == Waiting <==> open && (l.status == Pending || l.status == Exchanging))
                && (reply.SignInFailed? <==> open && l.status == Error)
                && (reply.SignInFailed? ==> reply.code == l.errorCode)
                && (reply == Unauthorized <==> open && l.status == Consumed)
                && (reply == NoAccount <==> ready && !r.found)
                && (reply == DeviceLimit <==> ready && r.found && !r.room)
                && (reply == NoDevice <==> ready && r.found && r.room && !r.made)
                && (reply == Tokens(l.accountId) <==> ready && r.found && r.room && r.made)
    {
      hide Run, Do, PollScript, RateLimit.Allow;
      if state == "" || pollSecret == "" {
        return BadRequest;
      }
      PollAlone(state, Before(st.oauth), 0, r.(secretHash := hash(pollSecret)));
      var login := st.OAuthLoginByState(state);
      if login.None? || login.value.pollSecretHash != hash(pollSecret) {
        reply := RejectGooglePoll(limitKey, r.now);
        return;
      }
      if r.now > login.value.expiresAt {
        return Expired;
      }
      match login.value.status
      case Pending => return Waiting;
      case Exchanging => return Waiting;
      case Error => return SignInFailed(login.value.errorCode);
      case Consumed => return Unauthorized;
      case Ready =>
        var consumed := st.ConsumeOAuthLogin(state);
        if !consumed {
          return Unauthorized;
        }
        if !r.found {
          var _ := st.ReopenOAuthLogin(state);
          return NoAccount;
        }
        reply := FinishGoogleLogin(state, login.value.accountId, r);
    }

    method RejectGooglePoll(limitKey: string, now: int) returns (reply: PollReply)
      modifies limiter
      ensures var (buckets, allowed) := RateLimit.Allow(limiter.limits, old(limiter.buckets), limitKey, now);
              limiter.buckets == buckets && reply == if allowed then Unauthorized else RateLimited
    {
      var allowed := limiter.Attempt(limitKey, now);
      return if allowed then Unauthorized else RateLimited;
    }

    /** Creates the device of a consumed session, or gives the session back. */
    method FinishGoogleLogin(state: string, accountId: AccountId, r: Request) returns (reply: PollReply)
      modifies this`devices, st
      ensures reply == if !r.room then DeviceLimit else if !r.made then NoDevice else Tokens(accountId)
      ensures st.oauth == if reply.Tokens? then old(st.oauth) else Reopen(old(st.oauth), state).0
      ensures devices == old(devices) + if reply.Tokens? then [accountId] else []
    {
      if !r.room {
        var _ := st.ReopenOAuthLogin(state);
        return DeviceLimit;
      }
      if !r.made {
        var _ := st.ReopenOAuthLogin(state);
        return NoDevice;
      }
      devices := devices + [accountId];
      return Tokens(accountId);
    }
  }
}
