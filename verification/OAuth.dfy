/** The Google sign-in sessions of the store as a value, and the transitions its methods make. */
module OAuth {
  import opened Basics

  type AccountId = string

  datatype Status = Pending | Exchanging | Ready | Error | Consumed

  datatype Login = Login(
    status: Status, verifier: string, pollSecretHash: string, accountId: AccountId,
    errorCode: string, expiresAt: int)

  type Logins = map<string, Login>

  /** How long an expired session is kept, in the unit of the clock. */
  const KEEP_EXPIRED: int := 24 * 60 * 60

  function Purge(m: Logins, now: int): Logins {
    map state <- m | m[state].expiresAt >= now - KEEP_EXPIRED :: m[state]
  }

  function CreateLogin(m: Logins, state: string, login: Login, now: int): (Logins, bool) {
    var kept := Purge(m, now);
    if state in kept then (kept, false) else (kept[state := login], true)
  }

  /** A session that is still pending and not expired goes to the one caller that claims it. */
  function Claim(m: Logins, state: string, now: int): (Logins, Option<Login>) {
    if state !in m || m[state].status != Pending || now >= m[state].expiresAt then (m, None)
    else
      var l := m[state].(status := Exchanging);
      (m[state := l], Some(l))
  }

  function MarkReady(m: Logins, state: string, account: AccountId): (Logins, bool) {
    if state !in m || m[state].status != Exchanging then (m, false)
    else (m[state := m[state].(status := Ready, accountId := account, verifier := "", errorCode := "")], true)
  }

  function MarkError(m: Logins, state: string, code: string): (Logins, bool) {
    if state !in m || m[state].status != Exchanging then (m, false)
    else (m[state := m[state].(status := Error, errorCode := code, verifier := "")], true)
  }

  function Consume(m: Logins, state: string): (Logins, bool) {
    if state !in m || m[state].status != Ready then (m, false)
    else (m[state := m[state].(status := Consumed, verifier := "")], true)
  }

  function Reopen(m: Logins, state: string): (Logins, bool) {
    if state !in m || m[state].status != Consumed then (m, false)
    else (m[state := m[state].(status := Ready)], true)
  }

  /** Purging drops exactly the sessions that expired more than a day ago, and a new session goes in exactly when its
      state is not taken by one that is left; every other session stays as it is. */
  lemma CreateMeans(m: Logins, state: string, login: Login, now: int, other: string)
    ensures other in Purge(m, now) <==> other in m && now - m[other].expiresAt <= 86_400
    ensures other in Purge(m, now) ==> Purge(m, now)[other] == m[other]
    ensures var (m', ok) := CreateLogin(m, state, login, now);
            && (ok <==> state in m ==> now - m[state].expiresAt > 86_400)
            && (ok ==> state in m' && m'[state] == login)
            && (other != state || !ok ==> (other in m' <==> other in Purge(m, now)))
            && (other in m' && (other != state || !ok) ==> m'[other] == m[other])
  {
  }
}
