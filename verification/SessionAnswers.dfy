/** What a client is told by a login, a refresh and a logout, in terms of the rows and of what
    fails, and what the table is left with. */
module SessionAnswers {
  import opened Wrappers
  import opened RefreshDecision
  import opened RefreshTable
  import opened Sessions

  /** The row of a login can be stored: nothing fails, and its id is not taken once expired
      rows have been purged. */
  predicate Storable(t: Table, jti: string, purge: bool, now: int, issueFails: bool) {
    !issueFails && (jti in t ==> purge && t[jti].expiresAt < now)
  }

  /** A login is answered with its token exactly when the row could be stored and the pair
      signed, and with an error otherwise. A stored row is an unrevoked one of the new family,
      for that user, that a refresh would accept at once. */
  lemma LoginAnswered(t: Table, user: int, family: string, jti: string, purge: bool, now: int, cfg: Config,
                      issueFails: bool, signFails: bool)
    requires ValidConfig(cfg)
    ensures var (rows, reply) := OpenStep(t, user, family, jti, purge, now, cfg, issueFails, signFails);
      && (reply == Refreshed(jti) <==> Storable(t, jti, purge, now, issueFails) && !signFails)
      && (reply == ServerError <==> !Storable(t, jti, purge, now, issueFails) || signFails)
      && (Storable(t, jti, purge, now, issueFails) ==>
            && jti in rows && rows[jti] == Row(family, user, now + cfg.lifetime, None)
            && Verdict(rows, jti, now, cfg) == Accept)
      && (forall j | Storable(t, jti, purge, now, issueFails) ==> j != jti ::
            && (j in rows <==> j in t && !(purge && t[j].expiresAt < now))
            && (j in rows ==> rows[j] == t[j]))
  {
  }

  /** A cookie this server signed for a refresh, not yet expired. */
  predicate Presents(cookie: Cookie, id: string, now: int) {
    cookie.Signed? && now < cookie.exp && cookie.id == id && id != ""
  }

  /** The row is stored and unexpired and, if it was consumed, was so within grace, in a family
      still alive. */
  ghost predicate Acceptable(t: Table, id: string, now: int, cfg: Config) {
    && id in t && now < t[id].expiresAt
    && (t[id].revokedAt.Some? ==>
          HasActive(t, t[id].family, now) && now - t[id].revokedAt.value <= cfg.grace)
  }

  /** A consumed token of a live family, presented after the grace period. */
  ghost predicate Reused(t: Table, id: string, now: int, cfg: Config) {
    && id in t && now < t[id].expiresAt && t[id].revokedAt.Some?
    && HasActive(t, t[id].family, now) && now - t[id].revokedAt.value > cfg.grace
  }

  /** Without a token the answer is 401 and nothing changes. */
  lemma NothingPresented(t: Table, cookie: Cookie, newJti: string, now: int, cfg: Config, faults: Faults)
    requires forall id :: !Presents(cookie, id, now)
    ensures RefreshStep(t, cookie, newJti, now, cfg, faults) == (t, Unauthorized)
    ensures LogoutStep(t, cookie, now, faults) == t
  {
    assert !Presents(cookie, if cookie.Signed? then cookie.id else "", now);
  }

  /** The three answers of a refresh that presents a token: 500 when a call it makes fails
      but for the user lookup, 200 with the successor when the token is acceptable and nothing
      fails, 401 otherwise. */
  lemma RefreshAnswered(t: Table, cookie: Cookie, id: string, newJti: string, now: int, cfg: Config, faults: Faults)
    requires Presents(cookie, id, now)
    ensures var reply := RefreshStep(t, cookie, newJti, now, cfg, faults).1;
      var readFails := faults.lookup || (faults.activity && id in t && t[id].revokedAt.Some?);
      var writeFails := faults.revoke || faults.issue || newJti in t || faults.sign;
      var accepted := Acceptable(t, id, now, cfg) && !faults.user;
      && (reply == Refreshed(newJti) <==> !readFails && accepted && !writeFails)
      && (reply == Unauthorized <==> !readFails && !accepted)
      && (reply == ServerError <==> readFails || (accepted && writeFails))
  {
  }

  /** Every row of the family is revoked, at `now` unless before, and nothing else changed. */
  ghost predicate FamilyStamped(t: Table, t': Table, family: string, now: int) {
    && t'.Keys == t.Keys
    && forall j | j in t ::
         if t[j].family == family && t[j].revokedAt.None? then t'[j] == t[j].(revokedAt := Some(now))
         else t'[j] == t[j]
  }

  /** A refused token changes nothing, except that reuse ends its whole family. */
  lemma RefusalChanges(t: Table, cookie: Cookie, id: string, newJti: string, now: int, cfg: Config, faults: Faults)
    requires Presents(cookie, id, now) && !Acceptable(t, id, now, cfg) && !faults.lookup
    requires id in t && t[id].revokedAt.Some? ==> !faults.activity
    ensures var t' := RefreshStep(t, cookie, newJti, now, cfg, faults).0;
      if Reused(t, id, now, cfg) && !faults.revokeFamily then FamilyStamped(t, t', t[id].family, now) else t' == t
  {
  }

  /** A logout stamps the family of a stored token, expired or not, and changes nothing else. */
  lemma LogoutChanges(t: Table, cookie: Cookie, id: string, now: int, faults: Faults)
    requires Presents(cookie, id, now)
    ensures var t' := LogoutStep(t, cookie, now, faults);
      if id in t && !faults.lookup && !faults.revokeFamily then FamilyStamped(t, t', t[id].family, now) else t' == t
  {
  }
}
