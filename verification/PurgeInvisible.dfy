/** Purging expired rows, as far as it can be observed: a store that purges at arbitrary
    moments is compared with one that never purges, and the runs that tell them apart are
    characterised exactly. */
module PurgeInvisible {
  import opened Wrappers
  import opened RefreshDecision
  import opened RefreshTable
  import opened Sessions
  import opened SessionRuns

  /** A request, and whether the purging store is swept once more just before it. */
  datatype Moment = Moment(sweepFirst: bool, request: Timed)

  function SweptFirst(t: Table, m: Moment): Table {
    if m.sweepFirst then Purged(t, m.request.now) else t
  }

  function ServePurging(t: Table, m: Moment, cfg: Config): (Table, Option<Reply>) {
    Serve(SweptFirst(t, m), m.request, cfg)
  }

  function Keeping(e: Timed): Timed {
    if e.event.Open? then e.(event := e.event.(purge := false)) else e
  }

  function ServeKeeping(u: Table, m: Moment, cfg: Config): (Table, Option<Reply>) {
    Serve(u, Keeping(m.request), cfg)
  }

  /** The unexpired rows of the two stores are the same. An expired one may be gone from `t`,
      or differ in whether and when it was revoked. */
  ghost predicate Bisimilar(t: Table, u: Table, now: int) {
    && (forall j | j in t :: j in u && u[j].family == t[j].family && u[j].expiresAt == t[j].expiresAt)
    && (forall j | j in u && now < u[j].expiresAt :: j in t && t[j] == u[j])
  }

  /** The ids issued are new, and the clock does not run backwards. */
  ghost predicate Possible(u: Table, now: int, e: Timed) {
    && now <= e.now
    && (e.event.Open? ==> e.event.jti !in u)
    && (e.event.Refresh? ==> e.event.newJti !in u)
  }

  ghost predicate PossibleRun(u: Table, now: int, moments: seq<Moment>, cfg: Config)
    decreases |moments|
  {
    moments == [] || (
      && Possible(u, now, moments[0].request)
      && PossibleRun(ServeKeeping(u, moments[0], cfg).0, moments[0].request.now, moments[1..], cfg))
  }

  // ------------------------------------------------------------ what tells them apart

  /** The row a logout presents has been purged though its cookie still parses, and its
      family is still alive. */
  ghost predicate MissedLogout(t: Table, u: Table, e: Timed) {
    e.event.Logout? &&
    var id := ParsedId(e.event.cookie, e.now);
    && id.Some? && id.value in u && id.value !in t
    && !e.event.faults.lookup && !e.event.faults.revokeFamily
    && HasActive(t, u[id.value].family, e.now)
  }

  /** The activity of the presented row's family is asked about. */
  predicate AsksActivity(t: Table, id: string) {
    id in t && t[id].revokedAt.Some?
  }

  /** The activity query fails, and only one of the stores makes it. */
  predicate OneSidedFault(t: Table, u: Table, e: Timed) {
    e.event.Refresh? &&
    var id := ParsedId(e.event.cookie, e.now);
    && id.Some? && !e.event.faults.lookup && e.event.faults.activity
    && AsksActivity(t, id.value) != AsksActivity(u, id.value)
  }

  ghost predicate Tells(t: Table, u: Table, e: Timed) {
    MissedLogout(t, u, e) || OneSidedFault(t, u, e)
  }

  ghost predicate NothingTells(t: Table, u: Table, moments: seq<Moment>, cfg: Config)
    decreases |moments|
  {
    moments == [] || (
      && !Tells(SweptFirst(t, moments[0]), u, moments[0].request)
      && NothingTells(ServePurging(t, moments[0], cfg).0, ServeKeeping(u, moments[0], cfg).0, moments[1..], cfg))
  }

  // ------------------------------------------------------------------- what is observed

  ghost predicate SameActive(t: Table, u: Table, now: int) {
    forall f, later | now <= later :: HasActive(t, f, later) <==> HasActive(u, f, later)
  }

  ghost predicate SameVerdicts(t: Table, u: Table, now: int, cfg: Config) {
    forall id, later | now <= later ::
      Verdict(t, id, later, cfg) == Verdict(u, id, later, cfg)
      || (Verdict(t, id, later, cfg) == RejectUnknown && Verdict(u, id, later, cfg) == RejectExpired)
  }

  /** Along a run the two stores give the same replies, the same families are alive after
      every request, and verdicts differ at most in unknown against expired. */
  ghost predicate Indistinguishable(t: Table, u: Table, now: int, moments: seq<Moment>, cfg: Config)
    decreases |moments|
  {
    && SameActive(t, u, now)
    && SameVerdicts(t, u, now, cfg)
    && (moments == [] || (
          var purging, keeping := ServePurging(t, moments[0], cfg), ServeKeeping(u, moments[0], cfg);
          && purging.1 == keeping.1
          && Indistinguishable(purging.0, keeping.0, moments[0].request.now, moments[1..], cfg)))
  }

  lemma SameActivity(t: Table, u: Table, now: int)
    requires Bisimilar(t, u, now)
    ensures SameActive(t, u, now)
  {
    forall f, later | now <= later ensures HasActive(t, f, later) <==> HasActive(u, f, later) {
      if HasActive(t, f, later) {
        var j :| j in t && t[j].family == f && t[j].revokedAt.None? && later < t[j].expiresAt;
        assert j in u && u[j] == t[j];
      }
      if HasActive(u, f, later) {
        var j :| j in u && u[j].family == f && u[j].revokedAt.None? && later < u[j].expiresAt;
        assert j in t && t[j] == u[j];
      }
    }
  }

  /** The two stores disagree on a verdict only by calling the same token unknown or expired. */
  lemma SameVerdict(t: Table, u: Table, now: int, cfg: Config)
    requires Bisimilar(t, u, now)
    ensures SameVerdicts(t, u, now, cfg)
  {
    SameActivity(t, u, now);
  }

  // ---------------------------------------------------------------------- one request

  lemma SameFamilyRevoked(t: Table, u: Table, now: int, f: string)
    requires Bisimilar(t, u, now)
    ensures Bisimilar(RevokedFamily(t, f, now), RevokedFamily(u, f, now), now)
  {
  }

  /** Revoking a family that is not alive changes expired rows only. */
  lemma RevokingTheDead(t: Table, u: Table, now: int, f: string)
    requires Bisimilar(t, u, now) && !HasActive(t, f, now)
    ensures Bisimilar(t, RevokedFamily(u, f, now), now)
  {
    SameActivity(t, u, now);
    assert !HasActive(u, f, now);
  }

  lemma SameRotation(t: Table, u: Table, now: int, id: string, newJti: string, cfg: Config, faults: Faults)
    requires Bisimilar(t, u, now) && id in t && id in u && t[id] == u[id] && newJti !in u
    ensures Rotate(t, id, newJti, now, cfg, faults).1 == Rotate(u, id, newJti, now, cfg, faults).1
    ensures Bisimilar(Rotate(t, id, newJti, now, cfg, faults).0, Rotate(u, id, newJti, now, cfg, faults).0, now)
  {
  }

  predicate Live(t: Table, id: string, now: int) {
    id in t && now < t[id].expiresAt
  }

  /** Presenting an unknown or expired token changes nothing, and is a 401 unless a query fails. */
  lemma DeadRefresh(t: Table, e: Timed, id: string, cfg: Config)
    requires e.event.Refresh? && ParsedId(e.event.cookie, e.now) == Some(id) && !Live(t, id, e.now)
    ensures Serve(t, e, cfg).0 == t
    ensures Serve(t, e, cfg).1 == Some(
      if e.event.faults.lookup || (AsksActivity(t, id) && e.event.faults.activity) then ServerError
      else Unauthorized)
  {
  }

  lemma LiveRefresh(t: Table, u: Table, e: Timed, id: string, cfg: Config)
    requires Bisimilar(t, u, e.now) && e.event.Refresh? && e.event.newJti !in u
    requires ParsedId(e.event.cookie, e.now) == Some(id) && Live(u, id, e.now)
    ensures Bisimilar(Serve(t, e, cfg).0, Serve(u, e, cfg).0, e.now)
    ensures Serve(t, e, cfg).1 == Serve(u, e, cfg).1
  {
    SameActivity(t, u, e.now);
    assert t[id] == u[id] && Verdict(t, id, e.now, cfg) == Verdict(u, id, e.now, cfg);
    SameRotation(t, u, e.now, id, e.event.newJti, cfg, e.event.faults);
    SameFamilyRevoked(t, u, e.now, u[id].family);
  }

  /** A refresh leaves bisimilar stores, and gets the same reply from both exactly when no
      activity query fails in one of them alone. */
  lemma RefreshStaysBisimilar(t: Table, u: Table, e: Timed, cfg: Config)
    requires Bisimilar(t, u, e.now) && e.event.Refresh? && e.event.newJti !in u
    ensures Bisimilar(Serve(t, e, cfg).0, Serve(u, e, cfg).0, e.now)
    ensures Serve(t, e, cfg).1 == Serve(u, e, cfg).1 <==> !OneSidedFault(t, u, e)
  {
    var id := ParsedId(e.event.cookie, e.now);
    if id.Some? {
      if Live(u, id.value, e.now) {
        LiveRefresh(t, u, e, id.value, cfg);
      } else {
        DeadRefresh(t, e, id.value, cfg);
        DeadRefresh(u, e, id.value, cfg);
      }
    }
  }

  /** A logout leaves the same families alive in both stores exactly when the purging store
      does not miss it, and then leaves them bisimilar. */
  lemma LogoutAgreesIff(t: Table, u: Table, e: Timed, cfg: Config)
    requires Bisimilar(t, u, e.now) && e.event.Logout?
    ensures !MissedLogout(t, u, e) ==> Bisimilar(Serve(t, e, cfg).0, Serve(u, e, cfg).0, e.now)
    ensures SameActive(Serve(t, e, cfg).0, Serve(u, e, cfg).0, e.now) <==> !MissedLogout(t, u, e)
  {
    var t', u' := Serve(t, e, cfg).0, Serve(u, e, cfg).0;
    var id := ParsedId(e.event.cookie, e.now);
    if id.Some? && id.value in u && !e.event.faults.lookup && !e.event.faults.revokeFamily {
      var f := u[id.value].family;
      if id.value in t {
        SameFamilyRevoked(t, u, e.now, f);
      } else if MissedLogout(t, u, e) {
        assert u' == RevokedFamily(u, f, e.now) && !HasActive(u', f, e.now);
        assert t' == t && HasActive(t', f, e.now);
      } else {
        RevokingTheDead(t, u, e.now, f);
      }
    }
    if !MissedLogout(t, u, e) {
      SameActivity(t', u', e.now);
    }
  }

  lemma BisimilarStep(t: Table, u: Table, now: int, m: Moment, cfg: Config)
    requires Bisimilar(t, u, now) && Possible(u, now, m.request)
    ensures var purging, keeping := ServePurging(t, m, cfg), ServeKeeping(u, m, cfg);
      if Tells(SweptFirst(t, m), u, m.request)
      then purging.1 != keeping.1 || !SameActive(purging.0, keeping.0, m.request.now)
      else purging.1 == keeping.1 && Bisimilar(purging.0, keeping.0, m.request.now)
  {
    var e, t0 := m.request, SweptFirst(t, m);
    assert Bisimilar(t0, u, e.now);
    match e.event {
      case Open(_, _, _, _, _, _) =>
      case Refresh(_, _, _) => RefreshStaysBisimilar(t0, u, e, cfg);
      case Logout(_, _) => LogoutAgreesIff(t0, u, e, cfg);
    }
  }

  // ----------------------------------------------------------------------- whole runs

  /** From bisimilar stores, for every run: purging cannot be observed if and only if no
      logout presents a purged row of a family still alive, and no activity query that only
      one store makes fails. */
  lemma {:induction false} PurgingIsInvisible(t: Table, u: Table, now: int, moments: seq<Moment>, cfg: Config)
    requires Bisimilar(t, u, now) && PossibleRun(u, now, moments, cfg)
    ensures Indistinguishable(t, u, now, moments, cfg) <==> NothingTells(t, u, moments, cfg)
    decreases |moments|
  {
    SameActivity(t, u, now);
    SameVerdict(t, u, now, cfg);
    if moments == [] {
    } else {
      var m := moments[0];
      BisimilarStep(t, u, now, m, cfg);
      if !Tells(SweptFirst(t, m), u, m.request) {
        PurgingIsInvisible(ServePurging(t, m, cfg).0, ServeKeeping(u, m, cfg).0, m.request.now, moments[1..], cfg);
      }
    }
  }

  /** No logout cookie outlives its row, and no activity query fails. */
  ghost predicate CookiesFit(u: Table, moments: seq<Moment>, cfg: Config)
    decreases |moments|
  {
    moments == [] || (
      var event := moments[0].request.event;
      && (event.Logout? && event.cookie.Signed? && event.cookie.id in u ==>
            event.cookie.exp <= u[event.cookie.id].expiresAt)
      && (event.Refresh? ==> !event.faults.activity)
      && CookiesFit(ServeKeeping(u, moments[0], cfg).0, moments[1..], cfg))
  }

  /** With logout cookies that expire no later than their rows, and an activity query that
      works, purging is invisible in every run. */
  lemma {:induction false} FittingCookiesTellNothing(t: Table, u: Table, now: int, moments: seq<Moment>, cfg: Config)
    requires Bisimilar(t, u, now) && PossibleRun(u, now, moments, cfg) && CookiesFit(u, moments, cfg)
    ensures Indistinguishable(t, u, now, moments, cfg)
    decreases |moments|
  {
    SameActivity(t, u, now);
    SameVerdict(t, u, now, cfg);
    if moments == [] {
    } else {
      var m := moments[0];
      BisimilarStep(t, u, now, m, cfg);
      assert Bisimilar(SweptFirst(t, m), u, m.request.now);
      FittingCookiesTellNothing(ServePurging(t, m, cfg).0, ServeKeeping(u, m, cfg).0, m.request.now, moments[1..], cfg);
    }
  }

  /** The two stores at the end of a run. */
  function AfterAll(t: Table, u: Table, moments: seq<Moment>, cfg: Config): (Table, Table)
    decreases |moments|
  {
    if moments == [] then (t, u)
    else AfterAll(ServePurging(t, moments[0], cfg).0, ServeKeeping(u, moments[0], cfg).0, moments[1..], cfg)
  }

  /** The last request of the run below. */
  lemma LogoutMissed(two: Table, logout: Moment, life: int, cfg: Config)
    requires 3 <= life
    requires two == map["a" := Row("f", 1, life, Some(life - 1)), "b" := Row("f", 1, life - 1 + life, None)]
    requires logout == Moment(true, At(life + 1, Logout(Signed("a", life + 2), NO_FAULTS)))
    ensures PossibleRun(two, life - 1, [logout], cfg) && !Indistinguishable(two, two, life - 1, [logout], cfg)
    ensures var (t, u) := AfterAll(two, two, [logout], cfg);
      HasActive(t, "f", life + 1) && !HasActive(u, "f", life + 1)
  {
    var t, u := ServePurging(two, logout, cfg).0, ServeKeeping(two, logout, cfg).0;
    assert SweptFirst(two, logout) == map["b" := two["b"]];
    assert "b" in t && t["b"] == two["b"] && HasActive(t, "f", life + 1);
    assert u == RevokedFamily(two, "f", life + 1);
    assert [logout][1..] == [];
    assert !SameActive(t, u, life + 1);
  }

  /** A run from the empty store that tells them apart: a login, a refresh just before the
      first token expires, and a logout with the first token just after, whose cookie has
      not yet expired. The purging store leaves the family alive. */
  lemma LongLivedLogoutTellsThemApart(cfg: Config)
    returns (moments: seq<Moment>)
    requires ValidConfig(cfg) && 3 <= cfg.lifetime
    ensures |moments| == 3
    ensures moments[2].request == At(cfg.lifetime + 1, Logout(Signed("a", cfg.lifetime + 2), NO_FAULTS))
    ensures PossibleRun(map[], 0, moments, cfg) && !Indistinguishable(map[], map[], 0, moments, cfg)
    ensures var (t, u) := AfterAll(map[], map[], moments, cfg);
      HasActive(t, "f", cfg.lifetime + 1) && !HasActive(u, "f", cfg.lifetime + 1)
  {
    var life := cfg.lifetime;
    var cookie := Signed("a", life + 2);
    var login := Moment(false, At(0, Open(1, "f", "a", true, false, false)));
    var refresh := Moment(false, At(life - 1, Refresh(cookie, "b", NO_FAULTS)));
    var logout := Moment(true, At(life + 1, Logout(cookie, NO_FAULTS)));
    moments := [login, refresh, logout];

    var a, b := Row("f", 1, life, None), Row("f", 1, life - 1 + life, None);
    var one := map["a" := a];
    var two := map["a" := a.(revokedAt := Some(life - 1)), "b" := b];
    assert ServePurging(map[], login, cfg).0 == one && ServeKeeping(map[], login, cfg).0 == one;
    assert Verdict(one, "a", life - 1, cfg) == Accept;
    assert ServePurging(one, refresh, cfg).0 == two && ServeKeeping(one, refresh, cfg).0 == two;
    assert moments[1..] == [refresh, logout] && [refresh, logout][1..] == [logout];
    LogoutMissed(two, logout, life, cfg);
    assert !Indistinguishable(one, one, 0, [refresh, logout], cfg);
  }
}
