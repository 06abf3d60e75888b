/** What becomes of "rotation always leaves a live successor" when requests interleave: the
    runs of Interleaving with a history of each family's latest token beside them, which no
    step reads. */
module Successors {
  import opened Wrappers
  import opened RefreshDecision
  import opened RefreshTable
  import opened Sessions
  import opened Interleaving

  /** The token a family was last given, with its expiry; whether the family was revoked since;
      whether that token was consumed; and which of its consumers have yet to store a
      successor. */
  datatype Latest = Latest(jti: string, expiry: int, ended: bool, consumed: bool, pending: set<nat>)

  datatype Chronicle = Chronicle(net: Net, families: map<string, Latest>)

  function Recorded(n: Net, families: map<string, Latest>, a: Act, cfg: Config): map<string, Latest>
    requires Enabled(n, a)
  {
    match a.action
    case OpenFamily(newJti) =>
      families[n.tasks[a.who].family := Latest(newJti, n.now + cfg.lifetime, false, false, {})]
    case Issue(newJti) =>
      families[n.tasks[a.who].row.family := Latest(newJti, n.now + cfg.lifetime, false, false, {})]
    case Consume =>
      var f := n.tasks[a.who].row.family;
      if f in families && families[f].jti == n.tasks[a.who].id
      then families[f := families[f].(consumed := true, pending := families[f].pending + {a.who})]
      else families
    case EndFamily =>
      var f := n.tasks[a.who].family;
      if f in families then families[f := families[f].(ended := true)] else families
    case Abandon =>
      var f := FamilyOf(n.tasks[a.who]);
      if f in families then families[f := families[f].(pending := families[f].pending - {a.who})] else families
    case _ => families
  }

  function Step(c: Chronicle, a: Act, cfg: Config): Chronicle
    requires Enabled(c.net, a)
  {
    Chronicle(Next(c.net, a, cfg), Recorded(c.net, c.families, a, cfg))
  }

  function Told(c: Chronicle, run: seq<Act>, cfg: Config): Chronicle
    requires ValidRun(c.net, run, cfg)
    decreases |run|
  {
    if run == [] then c else Told(Step(c, run[0], cfg), run[1..], cfg)
  }

  function Start(now: int): Chronicle {
    Chronicle(Net(map[], map[], now, {}), map[])
  }

  ghost predicate Reached(c: Chronicle, cfg: Config) {
    exists start, run :: ValidRun(Start(start).net, run, cfg) && c == Told(Start(start), run, cfg)
  }

  // ---------------------------------------------------------------- what every run keeps

  ghost predicate RowKept(c: Chronicle, j: string)
    requires j in c.net.rows
  {
    var row := c.net.rows[j];
    row.family in c.families && row.expiresAt <= c.families[row.family].expiry
  }

  /** A task that has read a row knows its family, and an expiry no later than the latest. */
  ghost predicate ReadKept(c: Chronicle, id: string, row: Row) {
    && id in c.net.used
    && row.family in c.families && row.expiresAt <= c.families[row.family].expiry
    && (id in c.net.rows ==> c.net.rows[id].family == row.family)
  }

  ghost predicate TaskKept(c: Chronicle, task: Task) {
    match task
    case Looked(id, row) => ReadKept(c, id, row)
    case Asked(id, row, _) => ReadKept(c, id, row)
    case Passed(id, row) => ReadKept(c, id, row)
    case _ => true
  }

  /** The latest token is stored until it expires, and unrevoked exactly while its family has
      not been revoked since and it has not been consumed; who is pending stands between
      consuming it and storing its successor. */
  ghost predicate LatestKept(c: Chronicle, f: string, cfg: Config)
    requires f in c.families
  {
    var latest := c.families[f];
    && latest.jti in c.net.used
    && latest.expiry <= c.net.now + cfg.lifetime
    && (latest.jti !in c.net.rows ==> latest.expiry < c.net.now)
    && (latest.jti in c.net.rows ==>
          var row := c.net.rows[latest.jti];
          && row.family == f && row.expiresAt == latest.expiry
          && (row.revokedAt.None? <==> !latest.ended && !latest.consumed))
    && (forall w | w in latest.pending ::
          w in c.net.tasks && c.net.tasks[w].Consumed? && c.net.tasks[w].row.family == f)
  }

  ghost predicate Inv(c: Chronicle, cfg: Config) {
    && IdsUsed(c.net)
    && (forall j | j in c.net.rows :: RowKept(c, j))
    && (forall who | who in c.net.tasks :: TaskKept(c, c.net.tasks[who]))
    && (forall f | f in c.families :: LatestKept(c, f, cfg))
  }

  ghost predicate RowsPersist(n: Net, n': Net) {
    forall j | j in n'.rows && j in n.used :: j in n.rows
      && n'.rows[j].family == n.rows[j].family && n'.rows[j].expiresAt == n.rows[j].expiresAt
  }

  ghost predicate FamiliesGrow(families: map<string, Latest>, families': map<string, Latest>) {
    forall f | f in families :: f in families' && families[f].expiry <= families'[f].expiry
  }

  /** What a step may do to ids, rows and families: nothing stored under a known id changes
      hands, and a family's latest expiry never comes down. */
  ghost predicate Grows(c: Chronicle, c': Chronicle) {
    c.net.used <= c'.net.used && RowsPersist(c.net, c'.net) && FamiliesGrow(c.families, c'.families)
  }

  lemma RowsPersistNext(n: Net, a: Act, cfg: Config)
    requires RowsUsed(n) && Enabled(n, a)
    ensures RowsPersist(n, Next(n, a, cfg))
  {
  }

  lemma FamiliesGrowNext(c: Chronicle, a: Act, cfg: Config)
    requires Enabled(c.net, a) && forall f | f in c.families :: c.families[f].expiry <= c.net.now + cfg.lifetime
    ensures FamiliesGrow(c.families, Recorded(c.net, c.families, a, cfg))
  {
  }

  lemma GrowsNext(c: Chronicle, a: Act, cfg: Config)
    requires Inv(c, cfg) && Enabled(c.net, a)
    ensures Grows(c, Step(c, a, cfg))
  {
    assert forall f | f in c.families :: LatestKept(c, f, cfg);
    IdsUsedStep(c.net, a, cfg);
    RowsPersistNext(c.net, a, cfg);
    FamiliesGrowNext(c, a, cfg);
  }

  lemma NewRowIsLatest(c: Chronicle, a: Act, j: string, cfg: Config)
    requires Enabled(c.net, a) && j in Step(c, a, cfg).net.rows && j !in c.net.rows
    ensures RowKept(Step(c, a, cfg), j)
  {
  }

  lemma RowKeptNext(c: Chronicle, a: Act, j: string, cfg: Config)
    requires Inv(c, cfg) && Enabled(c.net, a) && Grows(c, Step(c, a, cfg)) && j in Step(c, a, cfg).net.rows
    ensures RowKept(Step(c, a, cfg), j)
  {
    if j in c.net.rows {
      assert RowKept(c, j);
    } else {
      NewRowIsLatest(c, a, j, cfg);
    }
  }

  lemma TaskStaysKept(c: Chronicle, c': Chronicle, task: Task)
    requires TaskKept(c, task) && Grows(c, c')
    ensures TaskKept(c', task)
  {
  }

  /** A task that moves on has what it had, or what it has just read. */
  lemma OwnTaskKept(c: Chronicle, a: Act, cfg: Config)
    requires Inv(c, cfg) && Enabled(c.net, a) && a.who in Next(c.net, a, cfg).tasks
    ensures TaskKept(c, Next(c.net, a, cfg).tasks[a.who])
  {
    if a.who in c.net.tasks {
      assert TaskKept(c, c.net.tasks[a.who]);
    }
    if a.action.ReadForRefresh? {
      assert a.action.id in c.net.rows ==> RowKept(c, a.action.id);
    }
  }

  lemma TaskKeptNext(c: Chronicle, a: Act, who: nat, cfg: Config)
    requires Inv(c, cfg) && Enabled(c.net, a) && Grows(c, Step(c, a, cfg)) && who in Step(c, a, cfg).net.tasks
    ensures TaskKept(Step(c, a, cfg), Step(c, a, cfg).net.tasks[who])
  {
    var task := Step(c, a, cfg).net.tasks[who];
    if who == a.who {
      OwnTaskKept(c, a, cfg);
    } else {
      FamiliesComeFrom(c.net, a, cfg);
      assert TaskKept(c, task);
    }
    TaskStaysKept(c, Step(c, a, cfg), task);
  }

  /** A step that stores a token makes it its family's latest, and touches no other family. */
  lemma LatestAfterIssue(c: Chronicle, a: Act, f: string, cfg: Config)
    requires ValidConfig(cfg) && Inv(c, cfg) && Enabled(c.net, a) && f in Step(c, a, cfg).families
    requires a.action.Issue? || a.action.OpenFamily?
    ensures LatestKept(Step(c, a, cfg), f, cfg)
  {
    if f in c.families {
      assert LatestKept(c, f, cfg);
    }
  }

  lemma LatestAfterConsume(c: Chronicle, a: Act, f: string, cfg: Config)
    requires Inv(c, cfg) && Enabled(c.net, a) && f in Step(c, a, cfg).families && a.action.Consume?
    ensures LatestKept(Step(c, a, cfg), f, cfg)
  {
    assert LatestKept(c, f, cfg) && TaskKept(c, c.net.tasks[a.who]);
  }

  lemma LatestAfterRevocation(c: Chronicle, a: Act, f: string, cfg: Config)
    requires Inv(c, cfg) && Enabled(c.net, a) && f in Step(c, a, cfg).families && a.action.EndFamily?
    ensures LatestKept(Step(c, a, cfg), f, cfg)
  {
    assert LatestKept(c, f, cfg);
  }

  /** Any other step leaves the rows, but for expired ones, and every task standing between
      its consuming and its issuing, but for one that is abandoned. */
  lemma OthersLeave(n: Net, a: Act, cfg: Config)
    requires Enabled(n, a) && !a.action.Issue? && !a.action.OpenFamily? && !a.action.Consume? && !a.action.EndFamily?
    ensures Next(n, a, cfg).rows == n.rows || Next(n, a, cfg).rows == Purged(n.rows, n.now)
    ensures n.used <= Next(n, a, cfg).used && n.now <= Next(n, a, cfg).now
    ensures forall w | w in n.tasks && n.tasks[w].Consumed? && !(a.action.Abandon? && w == a.who) ::
      w in Next(n, a, cfg).tasks && Next(n, a, cfg).tasks[w] == n.tasks[w]
  {
  }

  lemma LatestAfterOther(c: Chronicle, a: Act, f: string, cfg: Config)
    requires Inv(c, cfg) && Enabled(c.net, a) && f in Step(c, a, cfg).families
    requires !a.action.Issue? && !a.action.OpenFamily? && !a.action.Consume? && !a.action.EndFamily?
    ensures LatestKept(Step(c, a, cfg), f, cfg)
  {
    OthersLeave(c.net, a, cfg);
    assert LatestKept(c, f, cfg);
  }

  lemma LatestKeptNext(c: Chronicle, a: Act, f: string, cfg: Config)
    requires ValidConfig(cfg) && Inv(c, cfg) && Enabled(c.net, a) && f in Step(c, a, cfg).families
    ensures LatestKept(Step(c, a, cfg), f, cfg)
  {
    if a.action.Issue? || a.action.OpenFamily? {
      LatestAfterIssue(c, a, f, cfg);
    } else if a.action.Consume? {
      LatestAfterConsume(c, a, f, cfg);
    } else if a.action.EndFamily? {
      LatestAfterRevocation(c, a, f, cfg);
    } else {
      LatestAfterOther(c, a, f, cfg);
    }
  }

  lemma InvStep(c: Chronicle, a: Act, cfg: Config)
    requires ValidConfig(cfg) && Inv(c, cfg) && Enabled(c.net, a)
    ensures Inv(Step(c, a, cfg), cfg)
  {
    var c' := Step(c, a, cfg);
    IdsUsedStep(c.net, a, cfg);
    GrowsNext(c, a, cfg);
    forall j | j in c'.net.rows ensures RowKept(c', j) {
      RowKeptNext(c, a, j, cfg);
    }
    forall who | who in c'.net.tasks ensures TaskKept(c', c'.net.tasks[who]) {
      TaskKeptNext(c, a, who, cfg);
    }
    forall f | f in c'.families ensures LatestKept(c', f, cfg) {
      LatestKeptNext(c, a, f, cfg);
    }
  }

  lemma {:induction false} InvRun(c: Chronicle, run: seq<Act>, cfg: Config)
    requires ValidConfig(cfg) && Inv(c, cfg) && ValidRun(c.net, run, cfg)
    ensures Inv(Told(c, run, cfg), cfg) && Told(c, run, cfg).net == After(c.net, run, cfg)
    decreases |run|
  {
    if run == [] {
    } else {
      InvStep(c, run[0], cfg);
      InvRun(Step(c, run[0], cfg), run[1..], cfg);
    }
  }

  lemma ReachedInv(c: Chronicle, cfg: Config)
    requires ValidConfig(cfg) && Reached(c, cfg)
    ensures Inv(c, cfg)
  {
    var start, run :| ValidRun(Start(start).net, run, cfg) && c == Told(Start(start), run, cfg);
    InvRun(Start(start), run, cfg);
  }

  // ------------------------------------------------------------------ the live successor

  /** The latest token was consumed, and every consumer gave up before storing a successor. */
  predicate Lost(latest: Latest) {
    latest.consumed && latest.pending == {}
  }

  /** A refresh stands between consuming the latest token and storing its successor. */
  predicate Rotating(latest: Latest) {
    latest.consumed && latest.pending != {}
  }

  /** A token other than the latest is unrevoked: one that an earlier replay forked. */
  ghost predicate ForkLives(t: Table, f: string, latest: Latest, now: int) {
    exists j | j in t :: j != latest.jti && t[j].family == f && t[j].revokedAt.None? && now < t[j].expiresAt
  }

  /** While a family's latest token has not expired: the family has no live token if and only
      if it was revoked since that token, the token was lost, or a refresh is rotating it, and
      no fork lives. */
  lemma InactiveIff(c: Chronicle, f: string, t: int, cfg: Config)
    requires ValidConfig(cfg) && Reached(c, cfg)
    requires f in c.families && c.net.now <= t < c.families[f].expiry
    ensures var latest := c.families[f];
      !HasActive(c.net.rows, f, t) <==>
        (latest.ended || Lost(latest) || Rotating(latest)) && !ForkLives(c.net.rows, f, latest, t)
  {
    ReachedInv(c, cfg);
    assert LatestKept(c, f, cfg);
    var latest, rows := c.families[f], c.net.rows;
    if HasActive(rows, f, t) && (latest.ended || latest.consumed) {
      var j :| j in rows && rows[j].family == f && rows[j].revokedAt.None? && t < rows[j].expiresAt;
      assert j != latest.jti;
    }
  }

  /** Rotation leaves a live successor, or is about to: a family with an unexpired row that was
      not revoked since its latest token, nor lost it, has a live token or a refresh that has
      consumed one and not yet stored the next. */
  lemma SuccessorLivesOrIsComing(c: Chronicle, j: string, cfg: Config)
    requires ValidConfig(cfg) && Reached(c, cfg)
    requires j in c.net.rows && c.net.now < c.net.rows[j].expiresAt
    ensures var f := c.net.rows[j].family;
      && f in c.families
      && (!c.families[f].ended && !Lost(c.families[f]) ==>
            || HasActive(c.net.rows, f, c.net.now)
            || exists w | w in c.net.tasks :: c.net.tasks[w].Consumed? && c.net.tasks[w].row.family == f)
  {
    ReachedInv(c, cfg);
    assert RowKept(c, j);
    var f := c.net.rows[j].family;
    assert LatestKept(c, f, cfg);
    InactiveIff(c, f, c.net.now, cfg);
    if Rotating(c.families[f]) {
      var w :| w in c.families[f].pending;
    }
  }

  /** The row a replay has read, with what it learns when it asks about the family now. */
  function AskedNow(n: Net, who: nat, cfg: Config): Task
    requires Enabled(n, By(who, AskFamily))
  {
    Next(n, By(who, AskFamily), cfg).tasks[who]
  }

  /** A replay within grace, in every interleaving: it is refused as revoked if and only if,
      when it asks, the family was revoked since its latest token, lost it, or is rotating it,
      and no fork lives. Otherwise it is accepted. */
  lemma ReplayRefusedIff(c: Chronicle, who: nat, later: int, cfg: Config)
    requires ValidConfig(cfg) && Reached(c, cfg) && Enabled(c.net, By(who, AskFamily))
    requires var row := c.net.tasks[who].row;
      c.net.now <= later < row.expiresAt && later - row.revokedAt.value <= cfg.grace
    ensures var f, verdict := c.net.tasks[who].row.family, Judgement(AskedNow(c.net, who, cfg), later, cfg);
      && f in c.families
      && var latest := c.families[f];
         && (verdict == RejectRevoked <==>
               (latest.ended || Lost(latest) || Rotating(latest)) && !ForkLives(c.net.rows, f, latest, c.net.now))
         && verdict in {Accept, RejectRevoked}
  {
    ReachedInv(c, cfg);
    assert TaskKept(c, c.net.tasks[who]);
    InactiveIff(c, c.net.tasks[who].row.family, c.net.now, cfg);
  }

  ghost predicate NothingGivesUp(run: seq<Act>) {
    forall k | 0 <= k < |run| :: !run[k].action.Abandon? && !run[k].action.EndFamily?
  }

  /** When no request stops early and no family is revoked, what remains is the rotation in
      progress: no family was ended, and none has lost its latest token. */
  lemma {:induction false} OnlyRotating(c: Chronicle, run: seq<Act>, cfg: Config)
    requires ValidConfig(cfg) && ValidRun(c.net, run, cfg) && NothingGivesUp(run)
    requires forall f | f in c.families :: !c.families[f].ended && !Lost(c.families[f])
    ensures forall f | f in Told(c, run, cfg).families ::
      !Told(c, run, cfg).families[f].ended && !Lost(Told(c, run, cfg).families[f])
    decreases |run|
  {
    if run == [] {
    } else {
      OnlyRotating(Step(c, run[0], cfg), run[1..], cfg);
    }
  }

  function Tabs(a: Row, tasks: map<nat, Task>): Net {
    Net(map["a" := a], tasks, 0, {"f", "a"})
  }

  /** The end of the run below: one tab consumes the token, the other reads it and asks. */
  lemma SecondTabAsks(a: Row, cfg: Config) returns (run: seq<Act>)
    requires a == Row("f", 1, cfg.lifetime, None)
    ensures ValidRun(Tabs(a, map[1 := Passed("a", a)]), run, cfg) && NothingGivesUp(run)
    ensures var gone := Revoke(a, 0);
      After(Tabs(a, map[1 := Passed("a", a)]), run, cfg)
      == Tabs(gone, map[1 := Consumed(a), 2 := Asked("a", gone, false)])
  {
    var gone := Revoke(a, 0);
    var n5, n6 := Tabs(gone, map[1 := Consumed(a)]), Tabs(gone, map[1 := Consumed(a), 2 := Looked("a", gone)]);
    assert Next(Tabs(a, map[1 := Passed("a", a)]), By(1, Consume), cfg) == n5;
    assert Next(n5, By(2, ReadForRefresh("a")), cfg) == n6;
    assert Next(n6, By(2, AskFamily), cfg) == Tabs(gone, map[1 := Consumed(a), 2 := Asked("a", gone, false)]);
    run := Prepend(n6, By(2, AskFamily), [], cfg);
    run := Prepend(n5, By(2, ReadForRefresh("a")), run, cfg);
    run := Prepend(Tabs(a, map[1 := Passed("a", a)]), By(1, Consume), run, cfg);
  }

  /** Where the comment's claim fails although no call does and nobody logs out: a second tab
      replays the token while the first stands between consuming it and storing its
      successor, and is refused as if the session had ended, within grace. */
  lemma SecondTabRefused(cfg: Config) returns (run: seq<Act>)
    requires ValidConfig(cfg)
    ensures ValidRun(Start(0).net, run, cfg) && NothingGivesUp(run)
    ensures var n := After(Start(0).net, run, cfg);
      && 2 in n.tasks && n.tasks[2].Asked? && n.tasks[2].id in n.rows
      && n.tasks[2].row == n.rows[n.tasks[2].id]
      && n.tasks[2].row.revokedAt == Some(n.now) && n.now < n.tasks[2].row.expiresAt
      && Judgement(n.tasks[2], n.now, cfg) == RejectRevoked
  {
    var a := Row("f", 1, cfg.lifetime, None);
    var n0 := Start(0).net;
    var n1 := Net(map[], map[0 := Opening(1, "f")], 0, {"f"});
    var n2, n3, n4 := Tabs(a, map[]), Tabs(a, map[1 := Looked("a", a)]), Tabs(a, map[1 := Passed("a", a)]);
    assert Next(n0, By(0, BeginLogin(1, "f")), cfg) == n1;
    assert Next(n1, By(0, OpenFamily("a")), cfg) == n2;
    assert Next(n2, By(1, ReadForRefresh("a")), cfg) == n3;
    assert Next(n3, By(1, Judge), cfg) == n4;
    run := SecondTabAsks(a, cfg);
    run := Prepend(n3, By(1, Judge), run, cfg);
    run := Prepend(n2, By(1, ReadForRefresh("a")), run, cfg);
    run := Prepend(n1, By(0, OpenFamily("a")), run, cfg);
    run := Prepend(n0, By(0, BeginLogin(1, "f")), run, cfg);
  }
}
