/** The session handlers as atomic steps (cmd/api/handlers.go, cmd/api/session.go). Each
    handler is a method over the repository, proved equal to a function of the table; the
    run-level theorems are about the functions. */
module Sessions {
  import opened Wrappers
  import opened RefreshDecision
  import opened RefreshTable

  /** The constant refresh-token lifetime and the -refresh-grace flag. */
  datatype Config = Config(lifetime: int, grace: int)

  ghost predicate ValidConfig(cfg: Config) {
    0 < cfg.lifetime && 0 <= cfg.grace
  }

  /** The refresh cookie as far as it matters: absent, not a JWT this server signed, or
      signed, with its `jti` ("" for an access token) and `exp`. */
  datatype Cookie = Missing | Unparsable | Signed(id: string, exp: int)

  /** Which calls report an error during one request. `user` is the user lookup failing,
      `issue` is issueSession failing to obtain an id or to store its row, `sign` its failing
      to sign the pair once the row is stored. */
  datatype Faults = Faults(lookup: bool, activity: bool, revokeFamily: bool,
                           user: bool, revoke: bool, issue: bool, sign: bool)

  const NO_FAULTS := Faults(false, false, false, false, false, false, false)

  /** 200 with a new refresh token, 401, or 500. */
  datatype Reply = Refreshed(jti: string) | Unauthorized | ServerError

  /** The id of a cookie that survives parsing: section 4.1.4 of RFC 7519 rejects a JWT
      whose `exp` is not in the future. */
  function ParsedId(cookie: Cookie, now: int): Option<string> {
    if cookie.Signed? && now < cookie.exp && cookie.id != "" then Some(cookie.id) else None
  }

  /** What the handler puts before Decide. Family activity is only asked of a revoked row. */
  function Snapshot(t: Table, id: string, now: int): State {
    if id in t then
      State(true, t[id].expiresAt, t[id].revokedAt,
            t[id].revokedAt.Some? && HasActive(t, t[id].family, now))
    else State(false, 0, None, false)
  }

  function Verdict(t: Table, id: string, now: int, cfg: Config): Decision {
    Decide(Snapshot(t, id, now), now, cfg.grace)
  }

  /** The end of issueSession: its row is stored, signed or not. */
  function Signing(jti: string, fails: bool): Reply {
    if fails then ServerError else Refreshed(jti)
  }

  /** Accepted: consume the token, then store the successor in the same family. */
  function Rotate(t: Table, id: string, newJti: string, now: int, cfg: Config, faults: Faults): (Table, Reply)
    requires id in t
  {
    if faults.user then (t, Unauthorized)
    else if faults.revoke then (t, ServerError)
    else
      var consumed := RevokedOne(t, id, now);
      if faults.issue || newJti in consumed then (consumed, ServerError)
      else (consumed[newJti := Row(t[id].family, t[id].user, now + cfg.lifetime, None)], Signing(newJti, faults.sign))
  }

  function RefreshStep(t: Table, cookie: Cookie, newJti: string, now: int, cfg: Config, faults: Faults)
    : (Table, Reply)
  {
    match ParsedId(cookie, now)
    case None => (t, Unauthorized)
    case Some(id) =>
      if faults.lookup || (id in t && t[id].revokedAt.Some? && faults.activity) then (t, ServerError)
      else match Verdict(t, id, now, cfg)
        case Accept => Rotate(t, id, newJti, now, cfg, faults)
        case ReuseDetected =>
          (if faults.revokeFamily then t else RevokedFamily(t, t[id].family, now), Unauthorized)
        case _ => (t, Unauthorized)
  }

  function LogoutStep(t: Table, cookie: Cookie, now: int, faults: Faults): Table {
    match ParsedId(cookie, now)
    case None => t
    case Some(id) =>
      if faults.lookup || id !in t || faults.revokeFamily then t
      else RevokedFamily(t, t[id].family, now)
  }

  /** A login or a registration once it is allowed: an optional purge, then a new family. */
  function OpenStep(t: Table, user: int, family: string, jti: string, purge: bool, now: int,
                    cfg: Config, issueFails: bool, signFails: bool): (Table, Reply)
  {
    var swept := if purge then Purged(t, now) else t;
    if issueFails || jti in swept then (swept, ServerError)
    else (swept[jti := Row(family, user, now + cfg.lifetime, None)], Signing(jti, signFails))
  }

  class SessionServer {
    const repo: TokenRepo
    const cfg: Config

    constructor (repo: TokenRepo, cfg: Config)
      ensures this.repo == repo && this.cfg == cfg
    {
      this.repo, this.cfg := repo, cfg;
    }

    /** `newJti` and `newFamily` are the two values newTokenID would draw. The row is written
        before the token is signed, so a failure to sign leaves it. */
    method IssueSession(user: int, familyID: string, newJti: string, newFamily: string, now: int,
                        fails: bool, signFails: bool)
      returns (reply: Reply)
      modifies repo
      ensures reply == if fails || newJti in old(repo.rows) then ServerError else Signing(newJti, signFails)
      ensures repo.rows ==
        if fails || newJti in old(repo.rows) then old(repo.rows)
        else
          var family := if familyID == "" then newFamily else familyID;
          old(repo.rows)[newJti := Row(family, user, now + cfg.lifetime, None)]
    {
      var family := familyID;
      if family == "" {
        family := newFamily;
      }
      var ok := repo.CreateRefreshToken(newJti, Row(family, user, now + cfg.lifetime, None), fails);
      reply := if ok then Signing(newJti, signFails) else ServerError;
    }

    method RefreshToken(cookie: Cookie, newJti: string, newFamily: string, now: int, faults: Faults)
      returns (reply: Reply)
      requires cookie.Signed? && cookie.id in repo.rows ==> repo.rows[cookie.id].family != ""
      modifies repo
      ensures (repo.rows, reply) == RefreshStep(old(repo.rows), cookie, newJti, now, cfg, faults)
    {
      if !cookie.Signed? || !(now < cookie.exp) {
        return Unauthorized;
      }
      if cookie.id == "" {
        return Unauthorized;
      }
      if faults.lookup {
        return ServerError;
      }
      var row := repo.GetRefreshToken(cookie.id);
      var state := State(false, 0, None, false);
      if row.Some? {
        var familyActive := false;
        if row.value.revokedAt.Some? {
          if faults.activity {
            return ServerError;
          }
          familyActive := repo.FamilyHasActiveToken(row.value.family, now);
        }
        state := State(true, row.value.expiresAt, row.value.revokedAt, familyActive);
      }
      assert state == Snapshot(repo.rows, cookie.id, now);
      match Decide(state, now, cfg.grace) {
        case ReuseDetected =>
          var _ := repo.RevokeRefreshFamily(row.value.family, now, faults.revokeFamily);
          return Unauthorized;
        case RejectUnknown =>
          return Unauthorized;
        case RejectExpired =>
          return Unauthorized;
        case RejectRevoked =>
          return Unauthorized;
        case Accept =>
      }
      if faults.user {
        return Unauthorized;
      }
      var ok := repo.RevokeRefreshToken(cookie.id, now, faults.revoke);
      if !ok {
        return ServerError;
      }
      reply := IssueSession(row.value.user, row.value.family, newJti, newFamily, now,
                            faults.issue, faults.sign);
    }

    method Logout(cookie: Cookie, now: int, faults: Faults)
      modifies repo
      ensures repo.rows == LogoutStep(old(repo.rows), cookie, now, faults)
    {
      if cookie.Signed? && now < cookie.exp {
        if cookie.id != "" && !faults.lookup {
          var row := repo.GetRefreshToken(cookie.id);
          if row.Some? {
            var _ := repo.RevokeRefreshFamily(row.value.family, now, faults.revokeFamily);
          }
        }
      }
    }

    /** The tail of Authenticate, after the password matched: housekeeping, whose error is
        dropped, then a new family. */
    method OpenSession(user: int, newJti: string, newFamily: string, now: int,
                       purgeFails: bool, issueFails: bool, signFails: bool)
      returns (reply: Reply)
      modifies repo
      ensures (repo.rows, reply)
           == OpenStep(old(repo.rows), user, newFamily, newJti, !purgeFails, now, cfg, issueFails, signFails)
    {
      var _ := repo.DeleteExpiredRefreshTokens(now, purgeFails);
      reply := IssueSession(user, "", newJti, newFamily, now, issueFails, signFails);
    }
  }
}
