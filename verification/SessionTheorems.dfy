/** What refresh-token rotation guarantees over whole runs of atomic handlers. */
module SessionTheorems {
  import opened Wrappers
  import opened RefreshDecision
  import opened RefreshTable
  import opened Sessions
  import opened SessionRuns

  ghost predicate Reached(w: World, cfg: Config) {
    exists start, events :: ValidRun(Start(start), events, cfg) && w == Run(Start(start), events, cfg)
  }

  lemma ReachedInv(w: World, cfg: Config)
    requires ValidConfig(cfg) && Reached(w, cfg)
    ensures Inv(w, cfg)
  {
    var start, events :| ValidRun(Start(start), events, cfg) && w == Run(Start(start), events, cfg);
    InvRun(Start(start), events, cfg);
  }

  /** No stored row has an empty family id, the value with which a login asks issueSession
      for a new one: a rotation always continues its family. */
  lemma FamiliesAreNamed(w: World, cfg: Config)
    requires ValidConfig(cfg) && Reached(w, cfg)
    ensures forall j | j in w.rows :: w.rows[j].family != ""
  {
    ReachedInv(w, cfg);
    forall j | j in w.rows ensures w.rows[j].family != "" {
      assert RowKnown(w, j) && LatestKept(w, w.rows[j].family, cfg);
    }
  }

  // ------------------------------------------------------- verdicts are decided by history

  ghost predicate HasUnexpired(t: Table, family: string, now: int) {
    exists j :: j in t && t[j].family == family && now < t[j].expiresAt
  }

  /** In a family never ended nor stranded, the latest token is unrevoked and outlives
      every other row, so the family is active exactly when it has any unexpired row. */
  lemma FamilyActiveIffUnexpired(w: World, f: string, t: int, cfg: Config)
    requires ValidConfig(cfg) && Reached(w, cfg)
    requires f in w.sessions && !w.sessions[f].ended && !w.sessions[f].stranded && w.now <= t
    ensures HasActive(w.rows, f, t) <==> HasUnexpired(w.rows, f, t)
    ensures HasUnexpired(w.rows, f, t) ==>
      var latest := w.sessions[f].latest;
      && Unrevoked(w.rows, latest) && w.rows[latest].family == f
      && forall j | j in w.rows && w.rows[j].family == f :: w.rows[j].expiresAt <= w.rows[latest].expiresAt
  {
    ReachedInv(w, cfg);
    assert LatestKept(w, f, cfg);
    if HasUnexpired(w.rows, f, t) {
      forall j | j in w.rows && w.rows[j].family == f
        ensures w.rows[j].expiresAt <= w.sessions[f].latestExpiry
      {
        assert RowKnown(w, j);
      }
    }
  }

  ghost predicate HasOther(t: Table, id: string, now: int)
    requires id in t
  {
    exists j | j in t :: j != id && t[j].family == t[id].family && t[j].revokedAt.None? && now < t[j].expiresAt
  }

  lemma OthersAreAll(t: Table, id: string, now: int)
    requires id in t && t[id].revokedAt.Some?
    ensures HasOther(t, id, now) <==> HasActive(t, t[id].family, now)
  {
  }

  /** For every stored unexpired token the verdict is decided by history: refused as revoked
      exactly when its family was ended, or it is consumed and no other token of the family
      lives. In a family whose latest token was not lost the second never happens. */
  lemma VerdictIsHistory(w: World, id: string, t: int, cfg: Config)
    requires ValidConfig(cfg) && Reached(w, cfg) && w.now <= t
    requires id in w.rows && t < w.rows[id].expiresAt
    ensures w.rows[id].family in w.sessions
    ensures var s, r, v := w.sessions[w.rows[id].family], w.rows[id].revokedAt, Verdict(w.rows, id, t, cfg);
      && (!s.ended && !s.stranded && r.Some? ==> HasOther(w.rows, id, t))
      && (s.ended ==> r.Some? && !HasOther(w.rows, id, t))
      && (v == RejectRevoked <==> s.ended || (r.Some? && !HasOther(w.rows, id, t)))
      && (v == Accept <==> !s.ended && (r.None? || (HasOther(w.rows, id, t) && t - r.value <= cfg.grace)))
      && (v == ReuseDetected <==> !s.ended && r.Some? && HasOther(w.rows, id, t) && t - r.value > cfg.grace)
  {
    ReachedInv(w, cfg);
    assert RowKnown(w, id);
    var f := w.rows[id].family;
    if w.rows[id].revokedAt.Some? {
      OthersAreAll(w.rows, id, t);
    }
    if w.sessions[f].ended {
      forall j | j in w.rows && w.rows[j].family == f ensures w.rows[j].revokedAt.Some? {
        assert RowKnown(w, j);
      }
    } else if !w.sessions[f].stranded {
      assert HasUnexpired(w.rows, f, t);
      FamilyActiveIffUnexpired(w, f, t, cfg);
    }
  }

  /** The retry that grace is for, exactly: after a request consumed a token, presenting it
      again within grace is accepted if and only if the successor was stored, or the family
      has another live token. */
  lemma RetryAcceptedIff(w: World, e: Timed, id: string, later: int, cfg: Config)
    requires ValidConfig(cfg) && Reached(w, cfg) && ValidEvent(w, e)
    requires e.event.Refresh? && ParsedId(e.event.cookie, e.now) == Some(id) && Unrevoked(w.rows, id)
    requires !e.event.faults.lookup && !e.event.faults.user && !e.event.faults.revoke
    requires e.now <= later <= e.now + cfg.grace && later < w.rows[id].expiresAt
    ensures Verdict(Step(w, e, cfg).rows, id, later, cfg) == Accept
       <==> !e.event.faults.issue || HasOther(w.rows, id, later)
  {
    ReachedInv(w, cfg);
    assert RowKnown(w, id) && LatestKept(w, w.rows[id].family, cfg);
    var rows', jti, f := Step(w, e, cfg).rows, e.event.newJti, w.rows[id].family;
    assert Verdict(w.rows, id, e.now, cfg) == Accept;
    assert jti !in w.rows by {
      assert jti in w.rows ==> RowKnown(w, jti);
    }
    if !e.event.faults.issue {
      assert rows'[jti].family == f && rows'[jti].revokedAt.None? && later < rows'[jti].expiresAt;
    } else {
      assert rows' == RevokedOne(w.rows, id, e.now);
      if HasOther(w.rows, id, later) {
        var j :| j in w.rows && j != id && w.rows[j].family == f && w.rows[j].revokedAt.None?
          && later < w.rows[j].expiresAt;
        assert rows'[j] == w.rows[j];
      }
    }
  }

  ghost predicate NoCreateFails(events: seq<Timed>) {
    forall k | 0 <= k < |events| :: events[k].event.Refresh? ==> !events[k].event.faults.issue
  }

  /** Only a failing create strands a family: in a run without one no token is lost, and the
      rule for verdicts holds of every family. */
  lemma {:induction false} NothingIsLost(w: World, events: seq<Timed>, cfg: Config)
    requires ValidConfig(cfg) && Inv(w, cfg) && ValidRun(w, events, cfg) && NoCreateFails(events)
    requires forall f | f in w.sessions :: !w.sessions[f].stranded && w.sessions[f].lost == 0
    ensures forall f | f in Run(w, events, cfg).sessions ::
      !Run(w, events, cfg).sessions[f].stranded && Run(w, events, cfg).sessions[f].lost == 0
    decreases |events|
  {
    if events == [] {
    } else {
      var e := events[0];
      assert e.event.Refresh? ==> e.event.newJti !in w.rows by {
        assert e.event.Refresh? && e.event.newJti in w.rows ==> RowKnown(w, e.event.newJti);
      }
      assert !EffectOf(w.rows, e, cfg).Lost?;
      InvStep(w, e, cfg);
      NothingIsLost(Step(w, e, cfg), events[1..], cfg);
    }
  }

  /** Where the rule above needs its condition: a row that cannot be stored after the
      token was consumed strands the family. Nothing ended it, yet the retry that grace
      was made for is refused as if it had been. */
  lemma LostSuccessorStrands(cfg: Config) returns (w: World, events: seq<Timed>)
    requires ValidConfig(cfg)
    ensures ValidRun(Start(0), events, cfg) && w == Run(Start(0), events, cfg)
    ensures "f" in w.sessions && !w.sessions["f"].ended && w.sessions["f"].stranded
    ensures "a" in w.rows && Verdict(w.rows, "a", w.now, cfg) == RejectRevoked
  {
    var login := At(0, Open(1, "f", "a", true, false, false));
    var refresh := At(0, Refresh(Signed("a", cfg.lifetime), "b", NO_FAULTS.(issue := true)));
    events := [login, refresh];
    var w0 := Start(0);
    var w1 := Step(w0, login, cfg);
    assert w1.rows == map["a" := Row("f", 1, cfg.lifetime, None)];
    assert w1.used == {"f", "a"};
    assert ValidEvent(w1, refresh);
    w := Step(w1, refresh, cfg);
    assert w.rows == map["a" := Row("f", 1, cfg.lifetime, Some(0))];
    assert events[1..] == [refresh] && [refresh][1..] == [];
    assert ValidRun(w, [], cfg) && Run(w, [], cfg) == w;
    assert ValidRun(w1, [refresh], cfg) && Run(w1, [refresh], cfg) == w;
  }

  // ------------------------------------------------------------------- dead stays dead

  lemma DeadStep(w: World, e: Timed, f: string, cfg: Config)
    requires ValidEvent(w, e) && f in w.used && !HasActive(w.rows, f, w.now)
    ensures f in Step(w, e, cfg).used && !HasActive(Step(w, e, cfg).rows, f, e.now)
  {
    EffectExplains(w.rows, e, cfg);
    var eff, rows' := EffectOf(w.rows, e, cfg), Step(w, e, cfg).rows;
    if eff.Rotated? && eff.family == f {
      AcceptedMeansActive(w.rows, eff.id, e.now, cfg);
      assert false;
    }
    forall j | j in rows' && rows'[j].family == f && rows'[j].revokedAt.None?
      ensures rows'[j].expiresAt <= e.now
    {
      assert j in w.rows && w.rows[j] == rows'[j];
    }
  }

  /** From here on the family has no live token, and none of its tokens is accepted or
      reported as reuse. */
  ghost predicate DeadFrom(t: Table, f: string, now: int, cfg: Config) {
    forall later | now <= later ::
      && !HasActive(t, f, later)
      && forall id | id in t && t[id].family == f :: Verdict(t, id, later, cfg) !in {Accept, ReuseDetected}
  }

  /** Once a family has no live token it never has one again, whatever happens and
      whatever fails, and from then on presenting any of its tokens is neither accepted
      nor reported as reuse. */
  lemma {:induction false} DeadStaysDead(w: World, events: seq<Timed>, f: string, cfg: Config)
    requires ValidRun(w, events, cfg) && f in w.used && !HasActive(w.rows, f, w.now)
    ensures DeadFrom(Run(w, events, cfg).rows, f, Run(w, events, cfg).now, cfg)
    decreases |events|
  {
    if events == [] {
      forall t, id | w.now <= t && id in w.rows && w.rows[id].family == f
        ensures Verdict(w.rows, id, t, cfg) !in {Accept, ReuseDetected}
      {
        if Verdict(w.rows, id, t, cfg) in {Accept, ReuseDetected} {
          AcceptedMeansActive(w.rows, id, t, cfg);
        }
      }
    } else {
      DeadStep(w, events[0], f, cfg);
      DeadStaysDead(Step(w, events[0], cfg), events[1..], f, cfg);
    }
  }

  /** A logout, or a detected reuse, is final for its family. */
  lemma EndedStaysDead(w: World, events: seq<Timed>, f: string, cfg: Config)
    requires ValidConfig(cfg) && Reached(w, cfg) && ValidRun(w, events, cfg)
    requires f in w.sessions && w.sessions[f].ended
    ensures DeadFrom(Run(w, events, cfg).rows, f, Run(w, events, cfg).now, cfg)
  {
    ReachedInv(w, cfg);
    assert LatestKept(w, f, cfg);
    assert forall j | j in w.rows :: RowKnown(w, j);
    DeadStaysDead(w, events, f, cfg);
  }

  /** One request touches at most one family: of every other one it adds no row, changes
      none, and removes only expired ones. */
  lemma StepsAreIsolated(t: Table, e: Timed, cfg: Config) returns (touched: string)
    requires e.event.Refresh? ==> e.event.newJti !in t
    requires e.event.Open? ==> e.event.jti !in t
    ensures var t' := Serve(t, e, cfg).0;
      && (forall j | j in t' && t'[j].family != touched :: j in t && t[j] == t'[j])
      && (forall j | j in t && t[j].family != touched :: (j in t' && t'[j] == t[j]) || t[j].expiresAt < e.now)
  {
    EffectExplains(t, e, cfg);
    var eff := EffectOf(t, e, cfg);
    touched := if eff.Nothing? then "" else eff.family;
  }

  // --------------------------------------------------- revoked_at and the grace window

  lemma WriteOnceStep(w: World, e: Timed, id: string, cfg: Config)
    requires ValidEvent(w, e) && id in w.used
    requires id in w.rows ==> w.rows[id].revokedAt.Some?
    ensures var w' := Step(w, e, cfg);
      id in w'.used && (id in w'.rows ==> id in w.rows && w'.rows[id] == w.rows[id])
  {
    EffectExplains(w.rows, e, cfg);
  }

  /** A consumed token keeps the instant of its consumption until its row is purged. */
  lemma {:induction false} RevokedAtIsWriteOnce(w: World, events: seq<Timed>, id: string, cfg: Config)
    requires ValidRun(w, events, cfg) && id in w.used
    requires id in w.rows ==> w.rows[id].revokedAt.Some?
    ensures id in Run(w, events, cfg).rows ==> id in w.rows && Run(w, events, cfg).rows[id] == w.rows[id]
    decreases |events|
  {
    if events == [] {
    } else {
      WriteOnceStep(w, events[0], id, cfg);
      RevokedAtIsWriteOnce(Step(w, events[0], cfg), events[1..], id, cfg);
    }
  }

  /** Request k of the run was a refresh that stored a successor on presenting `id`. */
  ghost predicate AcceptedAt(w: World, events: seq<Timed>, k: nat, id: string, cfg: Config)
    requires k < |events|
  {
    var eff := EffectOf(Run(w, events[..k], cfg).rows, events[k], cfg);
    eff.Rotated? && eff.id == id
  }

  /** The run between two of its requests. */
  lemma RunBetween(w0: World, events: seq<Timed>, i: nat, j: nat, cfg: Config)
    requires ValidRun(w0, events, cfg) && i < j <= |events|
    ensures ValidRun(w0, events[..i], cfg) && ValidEvent(Run(w0, events[..i], cfg), events[i])
    ensures var next := Step(Run(w0, events[..i], cfg), events[i], cfg);
      ValidRun(next, events[..j][i + 1..], cfg) && Run(next, events[..j][i + 1..], cfg) == Run(w0, events[..j], cfg)
  {
    RunSplits(w0, events, cfg, i);
    RunSplits(w0, events, cfg, j);
    RunSplits(w0, events[..j], cfg, i + 1);
    assert events[..j][..i + 1] == events[..i + 1];
  }

  /** However often a token is replayed, all its acceptances fall within one interval of
      length grace. */
  lemma AcceptancesWithinGrace(events: seq<Timed>, start: int, i: nat, j: nat, id: string, cfg: Config)
    requires ValidConfig(cfg) && ValidRun(Start(start), events, cfg)
    requires i <= j < |events|
    requires AcceptedAt(Start(start), events, i, id, cfg) && AcceptedAt(Start(start), events, j, id, cfg)
    ensures events[j].now - events[i].now <= cfg.grace
  {
    if i < j {
      var w0 := Start(start);
      RunBetween(w0, events, i, j, cfg);
      var wi, wj := Run(w0, events[..i], cfg), Run(w0, events[..j], cfg);
      InvRun(w0, events[..i], cfg);
      EffectExplains(wi.rows, events[i], cfg);
      EffectExplains(wj.rows, events[j], cfg);
      assert RowKnown(wi, id);
      var next := Step(wi, events[i], cfg);
      RevokedAtIsWriteOnce(next, events[..j][i + 1..], id, cfg);
      assert id in wj.rows && wj.rows[id] == next.rows[id];
    }
  }

  // ---------------------------------------------------------------------- conservation

  ghost function Issued(t: Table, f: string): set<string> {
    set j | j in t && t[j].family == f
  }

  ghost function Live(t: Table, f: string): set<string> {
    set j | j in t && t[j].family == f && t[j].revokedAt.None?
  }

  /** What a family's history says about how many rows it has, and how many unrevoked. */
  predicate Tallies(s: Session, issued: int, live: int) {
    && issued == 1 + s.accepted + s.unsigned
    && live == (if s.ended then 0 else 1 + s.replays - s.lost)
  }

  ghost predicate OneUser(w: World, f: string)
    requires f in w.sessions
  {
    forall j | j in w.rows && w.rows[j].family == f :: w.rows[j].user == w.sessions[f].user
  }

  ghost predicate Conserved(w: World, f: string) {
    f in w.sessions ==>
      Tallies(w.sessions[f], |Issued(w.rows, f)|, |Live(w.rows, f)|) && OneUser(w, f)
  }

  ghost predicate NeverPurges(events: seq<Timed>) {
    forall k | 0 <= k < |events| :: events[k].event.Open? ==> !events[k].event.purge
  }

  /** How one effect moves the set of a family's rows, and the set of its unrevoked ones. */
  lemma IssuedMoves(t: Table, e: Timed, eff: Effect, f: string, cfg: Config)
    requires Explains(t, e, cfg, eff) && (e.event.Open? ==> !e.event.purge)
    requires eff.Opened? ==> eff.jti !in t
    ensures var t' := Serve(t, e, cfg).0;
      if eff.Opened? && eff.family == f then Issued(t', f) == Issued(t, f) + {eff.jti}
      else if eff.Rotated? && eff.family == f then
        eff.newJti !in Issued(t, f) && Issued(t', f) == Issued(t, f) + {eff.newJti}
      else Issued(t', f) == Issued(t, f)
  {
  }

  lemma LiveMoves(t: Table, e: Timed, eff: Effect, f: string, cfg: Config)
    requires Explains(t, e, cfg, eff) && (e.event.Open? ==> !e.event.purge)
    requires eff.Opened? ==> eff.jti !in t
    ensures var t' := Serve(t, e, cfg).0;
      if eff.Nothing? || eff.family != f then Live(t', f) == Live(t, f)
      else match eff
        case Opened(_, _, jti) => Live(t', f) == Live(t, f) + {jti}
        case Ended(_) => Live(t', f) == {}
        case Lost(_, id) => id in Live(t, f) && Live(t', f) == Live(t, f) - {id}
        case Rotated(_, id, newJti, replay, _) =>
          && newJti !in Live(t, f) && (id in Live(t, f) <==> !replay)
          && Live(t', f) == Live(t, f) - {id} + {newJti}
  {
  }

  lemma CountsMove(w: World, e: Timed, eff: Effect, f: string, cfg: Config)
    requires Inv(w, cfg) && ValidEvent(w, e) && (e.event.Open? ==> !e.event.purge)
    requires Explains(w.rows, e, cfg, eff)
    ensures var t' := Serve(w.rows, e, cfg).0;
      var issued, live := |Issued(t', f)| - |Issued(w.rows, f)|, |Live(t', f)| - |Live(w.rows, f)|;
      if eff.Nothing? || eff.family != f then issued == 0 && live == 0
      else match eff
        case Opened(_, _, _) => |Issued(t', f)| == 1 && |Live(t', f)| == 1
        case Ended(_) => issued == 0 && |Live(t', f)| == 0
        case Lost(_, _) => issued == 0 && live == -1
        case Rotated(_, _, _, replay, _) => issued == 1 && live == (if replay then 1 else 0)
  {
    assert forall j | j in w.rows :: RowKnown(w, j);
    if eff.Opened? {
      assert eff.jti !in w.rows && eff.family !in w.used;
      if eff.family == f {
        assert forall j | j in w.rows :: w.rows[j].family in w.sessions ==> LatestKept(w, w.rows[j].family, cfg);
        assert Issued(w.rows, f) == {} && Live(w.rows, f) == {};
      }
    }
    IssuedMoves(w.rows, e, eff, f, cfg);
    LiveMoves(w.rows, e, eff, f, cfg);
  }

  /** The family an effect names: new when opened, known otherwise, and not yet ended when
      one of its tokens is consumed. */
  lemma FamilyOf(w: World, e: Timed, eff: Effect, cfg: Config)
    requires Inv(w, cfg) && ValidEvent(w, e)
    requires eff == EffectOf(w.rows, e, cfg) && !eff.Nothing?
    ensures eff.Opened? ==> eff.family !in w.sessions
    ensures !eff.Opened? ==> eff.family in w.sessions
    ensures eff.Lost? || eff.Rotated? ==> !w.sessions[eff.family].ended
  {
    EffectExplains(w.rows, e, cfg);
    if eff.Rotated? {
      assert RowKnown(w, eff.id);
      NotEndedWhenAccepted(w, eff.id, e.now, cfg);
    } else if eff.Lost? {
      assert RowKnown(w, eff.id);
    } else if eff.Opened? {
      assert eff.family in w.sessions ==> LatestKept(w, eff.family, cfg);
    } else {
      var id :| id in w.rows && w.rows[id].family == eff.family;
      assert RowKnown(w, id);
    }
  }

  lemma OneUserKept(w: World, e: Timed, eff: Effect, f: string, cfg: Config)
    requires Inv(w, cfg) && ValidEvent(w, e)
    requires eff == EffectOf(w.rows, e, cfg) && f in Step(w, e, cfg).sessions
    ensures OneUser(Step(w, e, cfg), f)
  {
    EffectExplains(w.rows, e, cfg);
    forall j | j in w.rows ensures RowKnown(w, j) {
    }
  }

  lemma ConservedStep(w: World, e: Timed, f: string, cfg: Config)
    requires ValidConfig(cfg) && Inv(w, cfg) && ValidEvent(w, e) && Conserved(w, f)
    requires e.event.Open? ==> !e.event.purge
    ensures Conserved(Step(w, e, cfg), f)
  {
    var eff, w' := EffectOf(w.rows, e, cfg), Step(w, e, cfg);
    if f in w'.sessions {
      OneUserKept(w, e, eff, f, cfg);
      EffectExplains(w.rows, e, cfg);
      CountsMove(w, e, eff, f, cfg);
      if !eff.Nothing? {
        FamilyOf(w, e, eff, cfg);
      }
      assert Tallies(w'.sessions[f], |Issued(w'.rows, f)|, |Live(w'.rows, f)|);
    }
  }

  lemma {:induction false} ConservedRun(w: World, events: seq<Timed>, f: string, cfg: Config)
    requires ValidConfig(cfg) && Inv(w, cfg) && ValidRun(w, events, cfg) && Conserved(w, f)
    requires NeverPurges(events)
    ensures Conserved(Run(w, events, cfg), f)
    decreases |events|
  {
    if events == [] {
    } else {
      InvStep(w, events[0], cfg);
      ConservedStep(w, events[0], f, cfg);
      ConservedRun(Step(w, events[0], cfg), events[1..], f, cfg);
    }
  }

  /** Conservation per family, without purging: rows issued are one, plus one per 200 and one
      per successor left unsigned; unrevoked rows are one, plus one per successor on the
      grace path, minus one per lost successor, until the family is ended and none
      afterwards; and all rows carry the user who logged in. */
  lemma TokensAreConserved(start: int, events: seq<Timed>, f: string, cfg: Config)
    requires ValidConfig(cfg) && ValidRun(Start(start), events, cfg) && NeverPurges(events)
    requires f in Run(Start(start), events, cfg).sessions
    ensures var w := Run(Start(start), events, cfg);
      var s := w.sessions[f];
      && |Issued(w.rows, f)| == 1 + s.accepted + s.unsigned
      && |Live(w.rows, f)| == (if s.ended then 0 else 1 + s.replays - s.lost)
      && forall j | j in w.rows && w.rows[j].family == f :: w.rows[j].user == s.user
  {
    ConservedRun(Start(start), events, f, cfg);
  }
}
