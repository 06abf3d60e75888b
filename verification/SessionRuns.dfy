/** Runs of atomic session steps under a monotone clock read once per step. The history
    part of a world (ids ever issued, one record per family) is never read by a handler. */
module SessionRuns {
  import opened Wrappers
  import opened RefreshDecision
  import opened RefreshTable
  import opened Sessions

  datatype Event =
    | Open(user: int, family: string, jti: string, purge: bool, fails: bool, signFails: bool)
    | Refresh(cookie: Cookie, newJti: string, faults: Faults)
    | Logout(cookie: Cookie, faults: Faults)

  datatype Timed = At(now: int, event: Event)

  /** One request against the table. A logout always answers 200; its reply is not used. */
  function Serve(t: Table, e: Timed, cfg: Config): (Table, Option<Reply>) {
    match e.event
    case Open(user, family, jti, purge, fails, signFails) =>
      var (rows, reply) := OpenStep(t, user, family, jti, purge, e.now, cfg, fails, signFails);
      (rows, Some(reply))
    case Refresh(cookie, newJti, faults) =>
      var (rows, reply) := RefreshStep(t, cookie, newJti, e.now, cfg, faults);
      (rows, Some(reply))
    case Logout(cookie, faults) => (LogoutStep(t, cookie, e.now, faults), None)
  }

  /** What one request does to the families, faults included. `Lost` is a token consumed
      for which no successor could be stored. */
  datatype Effect =
    | Opened(family: string, user: int, jti: string)
    | Rotated(family: string, id: string, newJti: string, replay: bool, signed: bool)
    | Lost(family: string, id: string)
    | Ended(family: string)
    | Nothing

  function Swept(t: Table, e: Timed): Table {
    if e.event.Open? && e.event.purge then Purged(t, e.now) else t
  }

  function EffectOf(t: Table, e: Timed, cfg: Config): Effect {
    match e.event
    case Open(user, family, jti, _, fails, _) =>
      if fails || jti in Swept(t, e) then Nothing else Opened(family, user, jti)
    case Logout(cookie, faults) =>
      var id := ParsedId(cookie, e.now);
      if id.Some? && id.value in t && !faults.lookup && !faults.revokeFamily
      then Ended(t[id.value].family) else Nothing
    case Refresh(cookie, newJti, faults) =>
      var id := ParsedId(cookie, e.now);
      if id.None? || id.value !in t || faults.lookup then Nothing
      else
        var row := t[id.value];
        if row.revokedAt.Some? && faults.activity then Nothing
        else match Verdict(t, id.value, e.now, cfg)
          case ReuseDetected => if faults.revokeFamily then Nothing else Ended(row.family)
          case Accept =>
            if faults.user || faults.revoke then Nothing
            else if !faults.issue && newJti !in t
            then Rotated(row.family, id.value, newJti, row.revokedAt.Some?, !faults.sign)
            else if row.revokedAt.None? then Lost(row.family, id.value)
            else Nothing
          case _ => Nothing
  }

  /** The table after a request, read off its effect. */
  ghost predicate Explains(t: Table, e: Timed, cfg: Config, eff: Effect) {
    var after := Serve(t, e, cfg).0;
    match eff
    case Opened(family, user, jti) =>
      e.event.Open? && jti == e.event.jti && family == e.event.family
      && after == Swept(t, e)[jti := Row(family, user, e.now + cfg.lifetime, None)]
    case Rotated(family, id, newJti, replay, signed) =>
      Serve(t, e, cfg).1 == Some(Signing(newJti, !signed))
      && e.event.Refresh? && newJti == e.event.newJti && id in t && t[id].family == family
      && Verdict(t, id, e.now, cfg) == Accept && replay == t[id].revokedAt.Some? && newJti !in t
      && after == RevokedOne(t, id, e.now)[newJti := Row(family, t[id].user, e.now + cfg.lifetime, None)]
    case Lost(family, id) =>
      Unrevoked(t, id) && t[id].family == family && e.now < t[id].expiresAt
      && after == RevokedOne(t, id, e.now)
    case Ended(family) =>
      after == RevokedFamily(t, family, e.now) && exists id :: id in t && t[id].family == family
    case Nothing => after == Swept(t, e)
  }

  lemma EffectExplains(t: Table, e: Timed, cfg: Config)
    ensures Explains(t, e, cfg, EffectOf(t, e, cfg))
  {
    if e.event.Refresh? {
      var id := ParsedId(e.event.cookie, e.now);
      if id.Some? && id.value in t && t[id.value].revokedAt.Some? {
        assert RevokedOne(t, id.value, e.now) == t;
      }
    }
  }

  /** A refresh is answered 200 exactly when it rotated a token and signed the successor. */
  lemma RefreshedIffSigned(t: Table, e: Timed, cfg: Config)
    requires e.event.Refresh?
    ensures var eff, reply := EffectOf(t, e, cfg), Serve(t, e, cfg).1;
      reply.Some? && (reply.value.Refreshed? <==> eff.Rotated? && eff.signed)
  {
  }

  /** History of one family. `latest` is its most recently issued token; `accepted` counts
      200 replies to its refreshes, `unsigned` successors stored but not handed out, `replays`
      successors stored on the grace path, `lost` consumed tokens without successor. `ended`
      is a logout or detected reuse that took effect; `stranded` says the latest token
      itself was lost. */
  datatype Session = Session(user: int, latest: string, latestExpiry: int, ended: bool, stranded: bool,
                             accepted: nat, unsigned: nat, replays: nat, lost: nat)

  datatype World = World(rows: Table, now: int, used: set<string>, sessions: map<string, Session>)

  function Recorded(s: Session, eff: Effect, expiry: int): Session {
    match eff
    case Rotated(_, _, newJti, replay, signed) =>
      s.(latest := newJti, latestExpiry := expiry, stranded := false,
         accepted := s.accepted + if signed then 1 else 0,
         unsigned := s.unsigned + if signed then 0 else 1,
         replays := s.replays + if replay then 1 else 0)
    case Lost(_, id) => s.(stranded := s.stranded || id == s.latest, lost := s.lost + 1)
    case Ended(_) => s.(ended := true)
    case _ => s
  }

  function Ids(e: Event): set<string> {
    match e
    case Open(_, family, jti, _, _, _) => {family, jti}
    case Refresh(_, newJti, _) => {newJti}
    case Logout(_, _) => {}
  }

  function Chronicle(sessions: map<string, Session>, eff: Effect, expiry: int): map<string, Session> {
    if eff.Opened? then
      sessions[eff.family := Session(eff.user, eff.jti, expiry, false, false, 0, 0, 0, 0)]
    else if !eff.Nothing? && eff.family in sessions then
      sessions[eff.family := Recorded(sessions[eff.family], eff, expiry)]
    else sessions
  }

  function Step(w: World, e: Timed, cfg: Config): World {
    World(Serve(w.rows, e, cfg).0, e.now, w.used + Ids(e.event),
          Chronicle(w.sessions, EffectOf(w.rows, e, cfg), e.now + cfg.lifetime))
  }

  /** Random ids never repeat, and the clock does not run backwards. */
  ghost predicate ValidEvent(w: World, e: Timed) {
    && w.now <= e.now
    && Ids(e.event) !! w.used
    && "" !in Ids(e.event)
    && (e.event.Open? ==> e.event.family != e.event.jti)
  }

  ghost predicate ValidRun(w: World, events: seq<Timed>, cfg: Config)
    decreases |events|
  {
    events == [] || (ValidEvent(w, events[0]) && ValidRun(Step(w, events[0], cfg), events[1..], cfg))
  }

  function Run(w: World, events: seq<Timed>, cfg: Config): World
    decreases |events|
  {
    if events == [] then w else Run(Step(w, events[0], cfg), events[1..], cfg)
  }

  function Start(now: int): World {
    World(map[], now, {}, map[])
  }

  lemma {:induction false} RunSplits(w: World, events: seq<Timed>, cfg: Config, k: nat)
    requires k <= |events| && ValidRun(w, events, cfg)
    ensures ValidRun(w, events[..k], cfg)
    ensures ValidRun(Run(w, events[..k], cfg), events[k..], cfg)
    ensures Run(w, events, cfg) == Run(Run(w, events[..k], cfg), events[k..], cfg)
    ensures k < |events| ==>
      Run(w, events[..k + 1], cfg) == Step(Run(w, events[..k], cfg), events[k], cfg)
    decreases k
  {
    if k == 0 {
      assert events[0..] == events && events[..0] == [];
      if events != [] {
        assert events[..1][1..] == [];
      }
    } else {
      RunSplits(Step(w, events[0], cfg), events[1..], cfg, k - 1);
      assert events[..k][1..] == events[1..][..k - 1];
      assert events[1..][k - 1..] == events[k..];
      if k < |events| {
        assert events[..k + 1][1..] == events[1..][..k];
      }
    }
  }

  // ------------------------------------------------------------------ what every run keeps

  ghost predicate RowKnown(w: World, j: string)
    requires j in w.rows
  {
    var row := w.rows[j];
    && j in w.used
    && (row.revokedAt.Some? ==> row.revokedAt.value <= w.now)
    && row.family in w.sessions
    && var s := w.sessions[row.family];
       && row.user == s.user
       && row.expiresAt <= s.latestExpiry
       && (s.ended ==> row.revokedAt.Some?)
  }

  /** The latest token of a family: stored unless it has expired, and unrevoked exactly
      while the family is neither ended nor stranded. */
  ghost predicate LatestKept(w: World, f: string, cfg: Config)
    requires f in w.sessions
  {
    var s := w.sessions[f];
    && f in w.used && f != "" && s.latest in w.used
    && s.latestExpiry <= w.now + cfg.lifetime
    && (s.latest !in w.rows ==> s.latestExpiry < w.now)
    && (s.latest in w.rows ==>
          var row := w.rows[s.latest];
          && row.family == f
          && row.expiresAt == s.latestExpiry
          && (row.revokedAt.None? <==> !s.ended && !s.stranded))
  }

  ghost predicate Inv(w: World, cfg: Config) {
    && (forall j | j in w.rows :: RowKnown(w, j))
    && (forall f | f in w.sessions :: LatestKept(w, f, cfg))
  }

  /** A family whose rows are all revoked, or expired, gets no acceptance. */
  lemma AcceptedMeansActive(t: Table, id: string, now: int, cfg: Config)
    requires id in t && Verdict(t, id, now, cfg) in {Accept, ReuseDetected}
    ensures HasActive(t, t[id].family, now)
  {
    if t[id].revokedAt.None? {
      assert t[id].family == t[id].family && now < t[id].expiresAt;
    }
  }

  lemma InvSwept(w: World, w': World, cfg: Config)
    requires Inv(w, cfg) && w.now <= w'.now && w.used <= w'.used && w'.sessions == w.sessions
    requires w'.rows == w.rows || w'.rows == Purged(w.rows, w'.now)
    ensures Inv(w', cfg)
  {
    forall j | j in w'.rows ensures RowKnown(w', j) {
      assert RowKnown(w, j);
    }
    forall f | f in w'.sessions ensures LatestKept(w', f, cfg) {
      assert LatestKept(w, f, cfg);
    }
  }

  lemma InvOpened(w: World, w': World, family: string, user: int, jti: string, cfg: Config)
    requires ValidConfig(cfg) && Inv(w, cfg)
    requires family != "" && family !in w.sessions && jti !in w.rows && {family, jti} <= w.used
    requires forall f | f in w.sessions :: w.sessions[f].latest != jti
    requires w'.now == w.now && w'.used == w.used
    requires w'.rows == w.rows[jti := Row(family, user, w.now + cfg.lifetime, None)]
    requires w'.sessions == Chronicle(w.sessions, Opened(family, user, jti), w.now + cfg.lifetime)
    ensures Inv(w', cfg)
  {
    forall j | j in w'.rows ensures RowKnown(w', j) {
      assert j != jti ==> RowKnown(w, j);
    }
    forall f | f in w'.sessions ensures LatestKept(w', f, cfg) {
      assert f != family ==> LatestKept(w, f, cfg);
    }
  }

  lemma InvLost(w: World, w': World, id: string, cfg: Config)
    requires Inv(w, cfg) && Unrevoked(w.rows, id)
    requires w'.now == w.now && w'.used == w.used
    requires w'.rows == RevokedOne(w.rows, id, w.now)
    requires w'.sessions == Chronicle(w.sessions, Lost(w.rows[id].family, id), w.now + cfg.lifetime)
    ensures Inv(w', cfg)
  {
    assert RowKnown(w, id);
    forall j | j in w'.rows ensures RowKnown(w', j) {
      assert RowKnown(w, j);
    }
    forall f | f in w'.sessions ensures LatestKept(w', f, cfg) {
      assert LatestKept(w, f, cfg);
    }
  }

  lemma InvRotated(w: World, w': World, id: string, newJti: string, signed: bool, cfg: Config)
    requires ValidConfig(cfg) && Inv(w, cfg)
    requires id in w.rows && w.rows[id].family in w.sessions && !w.sessions[w.rows[id].family].ended
    requires newJti !in w.rows && newJti in w.used
    requires forall f | f in w.sessions :: w.sessions[f].latest != newJti
    requires w'.now == w.now && w'.used == w.used
    requires var row, expiry := w.rows[id], w.now + cfg.lifetime;
             && w'.rows == RevokedOne(w.rows, id, w.now)[newJti := Row(row.family, row.user, expiry, None)]
             && w'.sessions ==
                Chronicle(w.sessions, Rotated(row.family, id, newJti, row.revokedAt.Some?, signed), expiry)
    ensures Inv(w', cfg)
  {
    assert RowKnown(w, id) && LatestKept(w, w.rows[id].family, cfg);
    forall j | j in w'.rows ensures RowKnown(w', j) {
      assert j != newJti ==> RowKnown(w, j);
    }
    forall f | f in w'.sessions ensures LatestKept(w', f, cfg) {
      assert LatestKept(w, f, cfg);
    }
  }

  lemma InvEnded(w: World, w': World, family: string, cfg: Config)
    requires Inv(w, cfg) && family in w.sessions
    requires w'.now == w.now && w'.used == w.used
    requires w'.rows == RevokedFamily(w.rows, family, w.now)
    requires w'.sessions == Chronicle(w.sessions, Ended(family), w.now + cfg.lifetime)
    ensures Inv(w', cfg)
  {
    forall j | j in w'.rows ensures RowKnown(w', j) {
      assert RowKnown(w, j);
    }
    forall f | f in w'.sessions ensures LatestKept(w', f, cfg) {
      assert LatestKept(w, f, cfg);
    }
  }

  /** Time has passed, ids have been drawn, and expired rows may have been swept. */
  function Before(w: World, e: Timed): World {
    World(Swept(w.rows, e), e.now, w.used + Ids(e.event), w.sessions)
  }

  lemma InvStepOpen(w: World, e: Timed, cfg: Config)
    requires ValidConfig(cfg) && Inv(w, cfg) && ValidEvent(w, e) && e.event.Open?
    requires Inv(Before(w, e), cfg)
    ensures Inv(Step(w, e, cfg), cfg)
  {
    EffectExplains(w.rows, e, cfg);
    var eff := EffectOf(w.rows, e, cfg);
    if eff.Opened? {
      assert forall f | f in w.sessions :: LatestKept(w, f, cfg);
      InvOpened(Before(w, e), Step(w, e, cfg), eff.family, eff.user, eff.jti, cfg);
    }
  }

  lemma NotEndedWhenAccepted(w: World, id: string, now: int, cfg: Config)
    requires Inv(w, cfg) && id in w.rows && Verdict(w.rows, id, now, cfg) in {Accept, ReuseDetected}
    ensures w.rows[id].family in w.sessions && !w.sessions[w.rows[id].family].ended
  {
    AcceptedMeansActive(w.rows, id, now, cfg);
    var j :| j in w.rows && w.rows[j].family == w.rows[id].family && w.rows[j].revokedAt.None?;
    assert RowKnown(w, j);
  }

  lemma InvStepRotated(w: World, e: Timed, cfg: Config)
    requires ValidConfig(cfg) && Inv(w, cfg) && ValidEvent(w, e) && EffectOf(w.rows, e, cfg).Rotated?
    requires Inv(Before(w, e), cfg)
    ensures Inv(Step(w, e, cfg), cfg)
  {
    EffectExplains(w.rows, e, cfg);
    var eff := EffectOf(w.rows, e, cfg);
    assert forall f | f in w.sessions :: LatestKept(w, f, cfg);
    NotEndedWhenAccepted(w, eff.id, e.now, cfg);
    InvRotated(Before(w, e), Step(w, e, cfg), eff.id, eff.newJti, eff.signed, cfg);
  }

  lemma InvStep(w: World, e: Timed, cfg: Config)
    requires ValidConfig(cfg) && Inv(w, cfg) && ValidEvent(w, e)
    ensures Inv(Step(w, e, cfg), cfg)
  {
    var eff, w', base := EffectOf(w.rows, e, cfg), Step(w, e, cfg), Before(w, e);
    InvSwept(w, base, cfg);
    if e.event.Open? {
      InvStepOpen(w, e, cfg);
    } else if eff.Rotated? {
      InvStepRotated(w, e, cfg);
    } else {
      EffectExplains(w.rows, e, cfg);
      if eff.Lost? {
        InvLost(base, w', eff.id, cfg);
      } else if eff.Ended? {
        var id :| id in w.rows && w.rows[id].family == eff.family;
        assert RowKnown(w, id);
        InvEnded(base, w', eff.family, cfg);
      }
    }
  }

  lemma {:induction false} InvRun(w: World, events: seq<Timed>, cfg: Config)
    requires ValidConfig(cfg) && Inv(w, cfg) && ValidRun(w, events, cfg)
    ensures Inv(Run(w, events, cfg), cfg)
    decreases |events|
  {
    if events == [] {
    } else {
      InvStep(w, events[0], cfg);
      InvRun(Step(w, events[0], cfg), events[1..], cfg);
    }
  }
}
