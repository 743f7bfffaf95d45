/** The client half of the rotation: a service that keeps one refresh token and caches its access token. */
module RefreshClient {
  import opened Options
  import opened TokenStore
  import opened RefreshSteps
  import opened Refresh

  const SAFETY_MARGIN: Time := 30_000_000_000

  /** What happens to one HTTP exchange with the auth service. */
  datatype Exchange = Answered | NeverArrived | AnswerLost

  class Client {
    var hasAccess: bool
    var accessExpiry: Time
    var refreshToken: Hash

    constructor (refreshToken: Hash)
      ensures this.refreshToken == refreshToken && !hasAccess
    {
      hasAccess := false;
      accessExpiry := 0;
      this.refreshToken := refreshToken;
    }

    /** The token held is live in the table. */
    ghost predicate Holds(rows: Table)
      reads this
    {
      refreshToken in rows && rows[refreshToken].Live()
    }

    /**
     accessTokenFor: the cached access token while it is valid past the margin, or one
     renewal.  Given that the token held is live and no answer is lost, the auth service
     never sees a reuse and the token held afterwards is live again.
     */
    method AccessTokenFor(server: Manager, ip: string, now: Time, next: Hash, lifetime: Time, e: Exchange)
      returns (ok: bool, ghost seen: Option<Answer>)
      requires Fresh(server.store.rows, next)
      modifies this, server.store
      ensures old(hasAccess) && now + SAFETY_MARGIN < old(accessExpiry) ==>
                ok && seen == None && server.store.rows == old(server.store.rows)
                && refreshToken == old(refreshToken) && accessExpiry == old(accessExpiry) && hasAccess
      ensures !(old(hasAccess) && now + SAFETY_MARGIN < old(accessExpiry)) ==>
                && (e.NeverArrived? ==> seen == None && server.store.rows == old(server.store.rows))
                && (!e.NeverArrived? ==>
                      && seen == Some(RotateAnswer(old(server.store.rows), old(refreshToken), ip, now, next))
                      && server.store.rows ==
                         RotateTable(old(server.store.rows), old(refreshToken), ip, now, next, now + server.ttl))
                && (ok <==> e.Answered? && seen.value.Renewed?)
                && (ok ==> refreshToken == next && hasAccess && accessExpiry == now + lifetime)
                && (!ok ==> refreshToken == old(refreshToken) && hasAccess == old(hasAccess) && accessExpiry == old(accessExpiry))
      ensures old(Holds(server.store.rows)) && !e.AnswerLost? ==>
                seen != Some(ReuseDetected) && Holds(server.store.rows)
    {
      seen := None;
      if hasAccess && now + SAFETY_MARGIN < accessExpiry {
        return true, None;
      }
      if e.NeverArrived? {
        return false, None;
      }
      var answer := server.Rotate(refreshToken, ip, now, now, next);
      seen := Some(answer);
      if e.AnswerLost? || !answer.Renewed? {
        return false, seen;
      }
      hasAccess := true;
      refreshToken := answer.secret;
      accessExpiry := now + lifetime;
      ok := true;
    }
  }
}
