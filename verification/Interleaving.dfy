/** The session protocol with every database call, and every Decide, as a step of its own:
    handlers interleave freely and any of them may stop early (an error, a cancelled
    request). The clock is read at each step and never runs backwards. */
module Interleaving {
  import opened Wrappers
  import opened RefreshDecision
  import opened RefreshTable
  import opened Sessions

  /** Where a handler is, with the local copy of the row it read. */
  datatype Task =
    | Looked(id: string, row: Row)                 // RefreshToken, row read
    | Asked(id: string, row: Row, active: bool)    // ... its revoked row's family asked about
    | Passed(id: string, row: Row)                 // ... Decide said Accept
    | Consumed(row: Row)                           // ... token revoked, successor not stored
    | Ending(family: string)                       // about to revoke a family
    | Opening(user: int, family: string)           // login, about to store its first token

  datatype Net = Net(rows: Table, tasks: map<nat, Task>, now: int, used: set<string>)

  datatype Action =
    | Tick(to: int)
    | ReadForRefresh(id: string)
    | AskFamily
    | Judge
    | Consume
    | Issue(newJti: string)
    | ReadForLogout(id: string)
    | EndFamily
    | BeginLogin(user: int, newFamily: string)
    | OpenFamily(newJti: string)
    | Purge
    | Abandon

  /** One step by task `who`; ticks and purges belong to nobody. */
  datatype Act = By(who: nat, action: Action)

  predicate Enabled(n: Net, a: Act) {
    match a.action
    case Tick(to) => n.now <= to
    case Purge => true
    case ReadForRefresh(_) => a.who !in n.tasks
    case ReadForLogout(_) => a.who !in n.tasks
    case BeginLogin(_, newFamily) => a.who !in n.tasks && newFamily !in n.used
    case AskFamily =>
      a.who in n.tasks && n.tasks[a.who].Looked? && n.tasks[a.who].row.revokedAt.Some?
    case Judge =>
      a.who in n.tasks
      && (n.tasks[a.who].Asked? || (n.tasks[a.who].Looked? && n.tasks[a.who].row.revokedAt.None?))
    case Consume => a.who in n.tasks && n.tasks[a.who].Passed?
    case Issue(newJti) => a.who in n.tasks && n.tasks[a.who].Consumed? && newJti !in n.used
    case EndFamily => a.who in n.tasks && n.tasks[a.who].Ending?
    case OpenFamily(newJti) => a.who in n.tasks && n.tasks[a.who].Opening? && newJti !in n.used
    case Abandon => a.who in n.tasks
  }

  /** The verdict of Decide on what the task read. */
  function Judgement(task: Task, now: int, cfg: Config): Decision
    requires task.Looked? || task.Asked?
  {
    Decide(State(true, task.row.expiresAt, task.row.revokedAt, task.Asked? && task.active), now, cfg.grace)
  }

  function Next(n: Net, a: Act, cfg: Config): Net
    requires Enabled(n, a)
  {
    var done := n.tasks - {a.who};
    match a.action
    case Tick(to) => n.(now := to)
    case Purge => n.(rows := Purged(n.rows, n.now))
    case ReadForRefresh(id) =>
      if id in n.rows then n.(tasks := n.tasks[a.who := Looked(id, n.rows[id])]) else n
    case ReadForLogout(id) =>
      if id in n.rows then n.(tasks := n.tasks[a.who := Ending(n.rows[id].family)]) else n
    case BeginLogin(user, newFamily) =>
      n.(tasks := n.tasks[a.who := Opening(user, newFamily)], used := n.used + {newFamily})
    case AskFamily =>
      var task := n.tasks[a.who];
      n.(tasks := n.tasks[a.who := Asked(task.id, task.row, HasActive(n.rows, task.row.family, n.now))])
    case Judge =>
      var task := n.tasks[a.who];
      (match Judgement(task, n.now, cfg)
       case Accept => n.(tasks := n.tasks[a.who := Passed(task.id, task.row)])
       case ReuseDetected => n.(tasks := n.tasks[a.who := Ending(task.row.family)])
       case _ => n.(tasks := done))
    case Consume =>
      var task := n.tasks[a.who];
      n.(rows := RevokedOne(n.rows, task.id, n.now), tasks := n.tasks[a.who := Consumed(task.row)])
    case Issue(newJti) =>
      var row := n.tasks[a.who].row;
      n.(rows := n.rows[newJti := Row(row.family, row.user, n.now + cfg.lifetime, None)],
         tasks := done, used := n.used + {newJti})
    case EndFamily => n.(rows := RevokedFamily(n.rows, n.tasks[a.who].family, n.now), tasks := done)
    case OpenFamily(newJti) =>
      var task := n.tasks[a.who];
      n.(rows := n.rows[newJti := Row(task.family, task.user, n.now + cfg.lifetime, None)],
         tasks := done, used := n.used + {newJti})
    case Abandon => n.(tasks := done)
  }

  ghost predicate ValidRun(n: Net, run: seq<Act>, cfg: Config)
    decreases |run|
  {
    run == [] || (Enabled(n, run[0]) && ValidRun(Next(n, run[0], cfg), run[1..], cfg))
  }

  function After(n: Net, run: seq<Act>, cfg: Config): Net
    requires ValidRun(n, run, cfg)
    decreases |run|
  {
    if run == [] then n else After(Next(n, run[0], cfg), run[1..], cfg)
  }

  lemma Prepend(n: Net, a: Act, rest: seq<Act>, cfg: Config) returns (run: seq<Act>)
    requires Enabled(n, a) && ValidRun(Next(n, a, cfg), rest, cfg)
    ensures run == [a] + rest && ValidRun(n, run, cfg)
    ensures After(n, run, cfg) == After(Next(n, a, cfg), rest, cfg)
  {
    run := [a] + rest;
    assert run[1..] == rest;
  }

  // ------------------------------------------------------------- ids and write once

  function FamilyOf(task: Task): string {
    match task
    case Looked(_, row) => row.family
    case Asked(_, row, _) => row.family
    case Passed(_, row) => row.family
    case Consumed(row) => row.family
    case Ending(family) => family
    case Opening(_, family) => family
  }

  ghost predicate RowsUsed(n: Net) {
    forall j | j in n.rows :: j in n.used && n.rows[j].family in n.used
  }

  ghost predicate TasksUsed(n: Net) {
    forall who | who in n.tasks :: FamilyOf(n.tasks[who]) in n.used
  }

  ghost predicate NoRowYet(rows: Table, family: string) {
    forall j | j in rows :: rows[j].family != family
  }

  ghost predicate NobodyElse(tasks: map<nat, Task>, who: nat, family: string) {
    forall other | other in tasks && other != who :: FamilyOf(tasks[other]) != family
  }

  /** A family about to be opened belongs to that login alone. */
  ghost predicate OpeningsAlone(n: Net) {
    forall who | who in n.tasks && n.tasks[who].Opening? ::
      NoRowYet(n.rows, n.tasks[who].family) && NobodyElse(n.tasks, who, n.tasks[who].family)
  }

  /** Every id in sight was drawn before, and no family being opened is in use. */
  ghost predicate IdsUsed(n: Net) {
    RowsUsed(n) && TasksUsed(n) && OpeningsAlone(n)
  }

  lemma RowsAndTasksUsed(n: Net, a: Act, cfg: Config)
    requires RowsUsed(n) && TasksUsed(n) && Enabled(n, a)
    ensures RowsUsed(Next(n, a, cfg)) && TasksUsed(Next(n, a, cfg)) && n.used <= Next(n, a, cfg).used
  {
  }

  /** Where the families of the next step's rows and tasks come from: rows and tasks of this
      one, or, for the task that begins a login, a new id. */
  lemma FamiliesComeFrom(n: Net, a: Act, cfg: Config)
    requires Enabled(n, a)
    ensures var n' := Next(n, a, cfg);
      && (forall j | j in n'.rows ::
            || (j in n.rows && n'.rows[j].family == n.rows[j].family)
            || (a.who in n.tasks && a.who !in n'.tasks && n'.rows[j].family == FamilyOf(n.tasks[a.who])))
      && (forall who | who in n'.tasks && who != a.who :: who in n.tasks && n'.tasks[who] == n.tasks[who])
      && (a.who in n'.tasks ==>
            || (a.who in n.tasks && FamilyOf(n'.tasks[a.who]) == FamilyOf(n.tasks[a.who])
                && (n'.tasks[a.who].Opening? ==> n'.tasks[a.who] == n.tasks[a.who]))
            || (a.action.BeginLogin? && FamilyOf(n'.tasks[a.who]) == a.action.newFamily)
            || (!n'.tasks[a.who].Opening?
                && exists j | j in n.rows :: n.rows[j].family == FamilyOf(n'.tasks[a.who])))
  {
  }

  lemma OpeningsStayAlone(n: Net, a: Act, who: nat, cfg: Config)
    requires IdsUsed(n) && Enabled(n, a)
    requires who in Next(n, a, cfg).tasks && Next(n, a, cfg).tasks[who].Opening?
    ensures var n' := Next(n, a, cfg);
      NoRowYet(n'.rows, n'.tasks[who].family) && NobodyElse(n'.tasks, who, n'.tasks[who].family)
  {
    FamiliesComeFrom(n, a, cfg);
  }

  lemma IdsUsedStep(n: Net, a: Act, cfg: Config)
    requires IdsUsed(n) && Enabled(n, a)
    ensures IdsUsed(Next(n, a, cfg)) && n.used <= Next(n, a, cfg).used
  {
    RowsAndTasksUsed(n, a, cfg);
    var n' := Next(n, a, cfg);
    forall who | who in n'.tasks && n'.tasks[who].Opening?
      ensures NoRowYet(n'.rows, n'.tasks[who].family) && NobodyElse(n'.tasks, who, n'.tasks[who].family)
    {
      OpeningsStayAlone(n, a, who, cfg);
    }
  }

  lemma {:induction false} IdsUsedRun(n: Net, run: seq<Act>, cfg: Config)
    requires IdsUsed(n) && ValidRun(n, run, cfg)
    ensures IdsUsed(After(n, run, cfg)) && n.used <= After(n, run, cfg).used
    decreases |run|
  {
    if run == [] {
    } else {
      IdsUsedStep(n, run[0], cfg);
      IdsUsedRun(Next(n, run[0], cfg), run[1..], cfg);
    }
  }

  /** Under every interleaving revoked_at is written once: while the row is stored it keeps
      its value, and nothing else in a row ever changes. */
  lemma {:induction false} RevokedAtWriteOnce(n: Net, run: seq<Act>, id: string, cfg: Config)
    requires IdsUsed(n) && ValidRun(n, run, cfg) && id in n.used
    ensures id in After(n, run, cfg).rows ==>
      && id in n.rows
      && var row, row' := n.rows[id], After(n, run, cfg).rows[id];
         && row' == row.(revokedAt := row'.revokedAt)
         && (row.revokedAt.Some? ==> row'.revokedAt == row.revokedAt)
    decreases |run|
  {
    if run == [] {
    } else {
      IdsUsedStep(n, run[0], cfg);
      RevokedAtWriteOnce(Next(n, run[0], cfg), run[1..], id, cfg);
    }
  }

  // ------------------------------------------------------------------ ending a family

  ghost predicate NoneUnrevoked(t: Table, f: string) {
    forall j | j in t && t[j].family == f :: t[j].revokedAt.Some?
  }

  /** The task may still store a token of family `f`: it has been accepted, or what it has
      read so far would be accepted if it were judged now. */
  ghost predicate Threatens(task: Task, f: string, now: int, cfg: Config) {
    match task
    case Looked(_, row) => row.family == f && row.revokedAt.None? && Judgement(task, now, cfg) == Accept
    case Asked(_, row, _) => row.family == f && Judgement(task, now, cfg) == Accept
    case Passed(_, row) => row.family == f
    case Consumed(row) => row.family == f
    case Ending(_) => false
    case Opening(_, family) => family == f
  }

  ghost predicate InFlight(n: Net, f: string, cfg: Config) {
    exists who | who in n.tasks :: Threatens(n.tasks[who], f, n.now, cfg)
  }

  ghost predicate Quiet(n: Net, f: string, cfg: Config) {
    f in n.used && NoneUnrevoked(n.rows, f) && !InFlight(n, f, cfg)
  }

  lemma QuietStep(n: Net, a: Act, f: string, cfg: Config)
    requires Quiet(n, f, cfg) && Enabled(n, a)
    ensures Quiet(Next(n, a, cfg), f, cfg)
  {
    var n' := Next(n, a, cfg);
    forall who | who in n'.tasks ensures !Threatens(n'.tasks[who], f, n'.now, cfg) {
      if who in n.tasks {
        assert !Threatens(n.tasks[who], f, n.now, cfg);
      }
    }
  }

  /** A task of family `f` has been accepted and stores its successor. */
  ghost predicate AcceptsFor(n: Net, a: Act, f: string) {
    a.who in n.tasks && a.action.Issue? && n.tasks[a.who].Consumed? && n.tasks[a.who].row.family == f
  }

  ghost predicate NeverAccepts(n: Net, run: seq<Act>, f: string, cfg: Config)
    requires ValidRun(n, run, cfg)
    decreases |run|
  {
    && NoneUnrevoked(n.rows, f)
    && (run == [] || (!AcceptsFor(n, run[0], f) && NeverAccepts(Next(n, run[0], cfg), run[1..], f, cfg)))
  }

  lemma {:induction false} QuietForever(n: Net, run: seq<Act>, f: string, cfg: Config)
    requires Quiet(n, f, cfg) && ValidRun(n, run, cfg)
    ensures NeverAccepts(n, run, f, cfg)
    decreases |run|
  {
    if run == [] {
    } else {
      assert AcceptsFor(n, run[0], f) ==> Threatens(n.tasks[run[0].who], f, n.now, cfg);
      QuietStep(n, run[0], f, cfg);
      QuietForever(Next(n, run[0], cfg), run[1..], f, cfg);
    }
  }

  /** An id that was never issued exists: one longer than all of them. */
  lemma {:induction false} LongestId(used: set<string>) returns (bound: nat)
    ensures forall s | s in used :: |s| <= bound
  {
    bound := 0;
    if used == {} {
    } else {
      var s :| s in used;
      var rest := LongestId(used - {s});
      bound := if rest < |s| then |s| else rest;
    }
  }

  lemma UnusedId(used: set<string>) returns (id: string)
    ensures id !in used
  {
    var bound := LongestId(used);
    id := seq(bound + 1, _ => 'a');
  }

  function StepsLeft(task: Task): nat {
    if task.Looked? || task.Asked? then 2 else if task.Passed? then 1 else 0
  }

  /** A threatening task, left alone, revives the family. */
  lemma ThreatRevives(n: Net, who: nat, f: string, cfg: Config) returns (run: seq<Act>)
    requires who in n.tasks && Threatens(n.tasks[who], f, n.now, cfg)
    ensures ValidRun(n, run, cfg) && !NoneUnrevoked(After(n, run, cfg).rows, f)
    decreases StepsLeft(n.tasks[who])
  {
    var task := n.tasks[who];
    var newJti := UnusedId(n.used);
    if task.Opening? || task.Consumed? {
      var last := By(who, if task.Opening? then OpenFamily(newJti) else Issue(newJti));
      assert newJti in Next(n, last, cfg).rows;
      run := Prepend(n, last, [], cfg);
    } else {
      var step := By(who, if task.Passed? then Consume else Judge);
      var rest := ThreatRevives(Next(n, step, cfg), who, f, cfg);
      run := Prepend(n, step, rest, cfg);
    }
  }

  lemma {:induction false} NeverAcceptsToTheEnd(n: Net, run: seq<Act>, f: string, cfg: Config)
    requires ValidRun(n, run, cfg) && NeverAccepts(n, run, f, cfg)
    ensures NoneUnrevoked(After(n, run, cfg).rows, f)
    decreases |run|
  {
    if run == [] {
    } else {
      NeverAcceptsToTheEnd(Next(n, run[0], cfg), run[1..], f, cfg);
    }
  }

  /** Some refresh of the family is in flight: accepted, or going to be on what it read. */
  ghost predicate RefreshInFlight(n: Net, f: string, cfg: Config) {
    exists who | who in n.tasks :: !n.tasks[who].Opening? && Threatens(n.tasks[who], f, n.now, cfg)
  }

  ghost predicate OverForGood(n: Net, f: string, cfg: Config) {
    forall run | ValidRun(n, run, cfg) :: NeverAccepts(n, run, f, cfg)
  }

  /** RevokeRefreshFamily ends the session for good, in every continuation, if and only if
      no refresh of the family is in flight when it runs. */
  lemma RevocationFinalIff(n: Net, who: nat, f: string, cfg: Config)
    requires IdsUsed(n) && who in n.tasks && n.tasks[who] == Ending(f)
    ensures OverForGood(Next(n, By(who, EndFamily), cfg), f, cfg) <==> !RefreshInFlight(n, f, cfg)
  {
    var n' := Next(n, By(who, EndFamily), cfg);
    if RefreshInFlight(n, f, cfg) {
      var other :| other in n.tasks && !n.tasks[other].Opening? && Threatens(n.tasks[other], f, n.now, cfg);
      var run := ThreatRevives(n', other, f, cfg);
      if NeverAccepts(n', run, f, cfg) {
        NeverAcceptsToTheEnd(n', run, f, cfg);
      }
    } else {
      assert Quiet(n', f, cfg);
      forall run | ValidRun(n', run, cfg) ensures NeverAccepts(n', run, f, cfg) {
        QuietForever(n', run, f, cfg);
      }
    }
  }

  /** A net in which task 1 has read token "a" for a refresh and task 2 is about to end its
      family. */
  function RaceBegun(cfg: Config): Net {
    var a := Row("f", 1, cfg.lifetime, None);
    Net(map["a" := a], map[1 := Looked("a", a), 2 := Ending("f")], 0, {"f", "a"})
  }

  /** Without the condition the claim is false of the handlers: the logout overtakes the
      refresh, which then stores a live token in the family the logout ended. */
  lemma LogoutLosesARace(cfg: Config) returns (n: Net, run: seq<Act>)
    requires ValidConfig(cfg)
    ensures ValidRun(RaceBegun(cfg), run, cfg) && n == After(RaceBegun(cfg), run, cfg)
    ensures |run| == 4 && run[0] == By(2, EndFamily) && n.tasks == map[]
    ensures Unrevoked(n.rows, "b") && n.rows["b"].family == "f" && HasActive(n.rows, "f", n.now)
  {
    var a := Row("f", 1, cfg.lifetime, None);
    var n1 := Next(RaceBegun(cfg), By(2, EndFamily), cfg);
    assert n1.tasks == map[1 := Looked("a", a)];
    var n2 := Next(n1, By(1, Judge), cfg);
    var n3 := Next(n2, By(1, Consume), cfg);
    assert n3.tasks == map[1 := Consumed(a)] && "b" !in n3.used;
    n := Next(n3, By(1, Issue("b")), cfg);
    assert n.tasks == map[];
    run := Prepend(n3, By(1, Issue("b")), [], cfg);
    run := Prepend(n2, By(1, Consume), run, cfg);
    run := Prepend(n1, By(1, Judge), run, cfg);
    run := Prepend(RaceBegun(cfg), By(2, EndFamily), run, cfg);
  }

  /** The race does begin: a login, a refresh and a logout reach it from the empty table. */
  lemma RaceIsReachable(cfg: Config) returns (run: seq<Act>)
    ensures ValidRun(Net(map[], map[], 0, {}), run, cfg)
    ensures After(Net(map[], map[], 0, {}), run, cfg) == RaceBegun(cfg)
  {
    var a := Row("f", 1, cfg.lifetime, None);
    var n0 := Net(map[], map[], 0, {});
    var n1 := Net(map[], map[0 := Opening(1, "f")], 0, {"f"});
    var n2 := Net(map["a" := a], map[], 0, {"f", "a"});
    var n3 := Net(map["a" := a], map[1 := Looked("a", a)], 0, {"f", "a"});
    assert Next(n0, By(0, BeginLogin(1, "f")), cfg) == n1;
    assert Next(n1, By(0, OpenFamily("a")), cfg) == n2;
    assert Next(n2, By(1, ReadForRefresh("a")), cfg) == n3;
    assert Next(n3, By(2, ReadForLogout("a")), cfg) == RaceBegun(cfg);
    run := Prepend(n3, By(2, ReadForLogout("a")), [], cfg);
    run := Prepend(n2, By(1, ReadForRefresh("a")), run, cfg);
    run := Prepend(n1, By(0, OpenFamily("a")), run, cfg);
    run := Prepend(n0, By(0, BeginLogin(1, "f")), run, cfg);
  }

  // ------------------------------------------------- the atomic model is one interleaving

  lemma JudgedToTheEnd(n: Net, m: Net, who: nat, id: string, newJti: string, cfg: Config) returns (run: seq<Act>)
    requires IdsUsed(n) && who !in n.tasks && newJti !in n.used && id in n.rows
    requires var row := n.rows[id];
      var task := if row.revokedAt.None? then Looked(id, row) else Asked(id, row, HasActive(n.rows, row.family, n.now));
      m == n.(tasks := n.tasks[who := task])
    ensures ValidRun(m, run, cfg)
    ensures After(m, run, cfg).tasks == n.tasks && After(m, run, cfg).now == n.now
    ensures After(m, run, cfg).rows ==
      match Verdict(n.rows, id, n.now, cfg)
      case Accept => Rotate(n.rows, id, newJti, n.now, cfg, NO_FAULTS).0
      case ReuseDetected => RevokedFamily(n.rows, n.rows[id].family, n.now)
      case _ => n.rows
  {
    var judge := By(who, Judge);
    var judged := Next(m, judge, cfg);
    assert Judgement(m.tasks[who], n.now, cfg) == Verdict(n.rows, id, n.now, cfg);
    assert judged.tasks - {who} == n.tasks;
    match Verdict(n.rows, id, n.now, cfg) {
      case Accept =>
        var consumed := Next(judged, By(who, Consume), cfg);
        var issued := Next(consumed, By(who, Issue(newJti)), cfg);
        assert issued.tasks == n.tasks;
        run := Prepend(consumed, By(who, Issue(newJti)), [], cfg);
        run := Prepend(judged, By(who, Consume), run, cfg);
      case ReuseDetected =>
        assert Next(judged, By(who, EndFamily), cfg).tasks == n.tasks;
        run := Prepend(judged, By(who, EndFamily), [], cfg);
      case _ =>
        run := [];
    }
    run := Prepend(m, judge, run, cfg);
  }

  /** A refresh whose steps run without interruption, the clock standing still, does to the
      table what the atomic handler does, and leaves no trace among the tasks; so do a
      logout and a login. */
  lemma UninterruptedRefreshIsAtomic(n: Net, who: nat, cookie: Cookie, newJti: string, cfg: Config)
    returns (run: seq<Act>)
    requires IdsUsed(n) && who !in n.tasks && newJti !in n.used
    ensures ValidRun(n, run, cfg)
    ensures After(n, run, cfg).rows == RefreshStep(n.rows, cookie, newJti, n.now, cfg, NO_FAULTS).0
    ensures After(n, run, cfg).tasks == n.tasks && After(n, run, cfg).now == n.now
  {
    var id := ParsedId(cookie, n.now);
    if id.None? || id.value !in n.rows {
      run := [];
      return;
    }
    var read := By(who, ReadForRefresh(id.value));
    var n1 := Next(n, read, cfg);
    if n.rows[id.value].revokedAt.None? {
      run := JudgedToTheEnd(n, n1, who, id.value, newJti, cfg);
    } else {
      var rest := JudgedToTheEnd(n, Next(n1, By(who, AskFamily), cfg), who, id.value, newJti, cfg);
      run := Prepend(n1, By(who, AskFamily), rest, cfg);
    }
    run := Prepend(n, read, run, cfg);
  }

  lemma UninterruptedLogoutIsAtomic(n: Net, who: nat, cookie: Cookie, cfg: Config) returns (run: seq<Act>)
    requires who !in n.tasks
    ensures ValidRun(n, run, cfg)
    ensures After(n, run, cfg).rows == LogoutStep(n.rows, cookie, n.now, NO_FAULTS)
    ensures After(n, run, cfg).tasks == n.tasks && After(n, run, cfg).now == n.now
  {
    var id := ParsedId(cookie, n.now);
    run := [];
    if id.Some? && id.value in n.rows {
      var read := By(who, ReadForLogout(id.value));
      var n1 := Next(n, read, cfg);
      assert Next(n1, By(who, EndFamily), cfg).tasks == n.tasks;
      run := Prepend(n1, By(who, EndFamily), run, cfg);
      run := Prepend(n, read, run, cfg);
    }
  }

  lemma UninterruptedLoginIsAtomic(n: Net, who: nat, user: int, family: string, jti: string, cfg: Config)
    returns (run: seq<Act>)
    requires IdsUsed(n) && who !in n.tasks && family !in n.used && jti !in n.used && family != jti
    ensures ValidRun(n, run, cfg)
    ensures After(n, run, cfg).rows == OpenStep(n.rows, user, family, jti, true, n.now, cfg, false, false).0
    ensures After(n, run, cfg).tasks == n.tasks && After(n, run, cfg).now == n.now
  {
    var n1 := Next(n, By(who, BeginLogin(user, family)), cfg);
    var n2 := Next(n1, By(who, Purge), cfg);
    assert n1.tasks - {who} == n.tasks;
    run := Prepend(n2, By(who, OpenFamily(jti)), [], cfg);
    run := Prepend(n1, By(who, Purge), run, cfg);
    run := Prepend(n, By(who, BeginLogin(user, family)), run, cfg);
  }
}
