/** The handlers' uses of the limiter: the two-limiter login gate of Authenticate with its
    Retry-After header, and the username check's check-then-record gate. */
module Gates {
  import opened Wrappers
  import opened Cardinality
  import opened SlidingWindow
  import opened RateLimiter
  import RefreshDecision
  import RefreshTable
  import Sessions
  import SessionAnswers

  function Max(a: int, b: int): int {
    if a < b then b else a
  }

  /** The header value: rounded up, and never 0. */
  function RetryAfterSeconds(wait: int): int {
    var seconds := (wait + SECOND - 1) / SECOND;
    if seconds < 1 then 1 else seconds
  }

  // ------------------------------------------------------------------ the login gate

  /** The two histories one login attempt is judged by, with their policies. */
  datatype Pair = Pair(ip: seq<int>, email: seq<int>)
  datatype Policies = Policies(ip: Policy, email: Policy)

  /** Each limiter is asked under its own lock, so at its own clock reading. */
  datatype Reading = Reading(ipAt: int, emailAt: int)

  predicate Admitted(h: Pair, at: Reading, ps: Policies) {
    Admits(h.ip, at.ipAt, ps.ip) && Admits(h.email, at.emailAt, ps.email)
  }

  predicate BothAdmit(h: Pair, t: int, ps: Policies) {
    Admitted(h, Reading(t, t), ps)
  }

  function LongerWait(h: Pair, at: Reading, ps: Policies): int
    requires 1 <= ps.ip.max && 1 <= ps.email.max
  {
    Max(Wait(h.ip, at.ipAt, ps.ip), Wait(h.email, at.emailAt, ps.email))
  }

  /** When the limiter that opens last does. */
  function FirstOpen(h: Pair, at: Reading, ps: Policies): int
    requires 1 <= ps.ip.max && 1 <= ps.email.max
  {
    Max(at.ipAt + Wait(h.ip, at.ipAt, ps.ip), at.emailAt + Wait(h.email, at.emailAt, ps.email))
  }

  ghost predicate GoodPair(h: Pair, at: Reading, ps: Policies) {
    && ValidPolicy(ps.ip) && ValidPolicy(ps.email) && at.ipAt <= at.emailAt
    && Good(h.ip, at.ipAt, ps.ip) && Good(h.email, at.emailAt, ps.email)
  }

  /** The clock readings of one attempt: two checks, then two records if it fails, or one
      session if it succeeds. */
  datatype Clock = Clock(check: Reading, record: Reading, session: int)

  ghost predicate InTime(at: Clock) {
    at.check.ipAt <= at.check.emailAt <= at.record.ipAt <= at.record.emailAt
  }

  /** A failed attempt: counted against both keys unless the gate turned it away. */
  function Attempt(h: Pair, at: Clock, ps: Policies): Pair {
    if Admitted(h, at.check, ps)
    then Pair(Record(h.ip, at.record.ipAt, ps.ip), Record(h.email, at.record.emailAt, ps.email))
    else h
  }

  function Attempts(h: Pair, clocks: seq<Clock>, ps: Policies): Pair
    decreases |clocks|
  {
    if clocks == [] then h else Attempts(Attempt(h, clocks[0], ps), clocks[1..], ps)
  }

  lemma StaysAdmitted(h: seq<int>, now: int, t: int, p: Policy)
    requires Sorted(h) && Admits(h, now, p) && now <= t
    ensures Admits(h, t, p)
  {
    NewerIsSuffix(h, now - p.window);
    NewerOfNewer(h, now - p.window, t - p.window);
    NewerIsSuffix(Newer(h, now - p.window), t - p.window);
  }

  /** One limiter, with its history at rest: admitted from then + its wait on, and not
      before. */
  lemma OpensExactly(h: seq<int>, now: int, t: int, p: Policy)
    requires ValidPolicy(p) && Good(h, now, p) && now <= t
    ensures 0 <= Wait(h, now, p) && (Wait(h, now, p) == 0 <==> Admits(h, now, p))
    ensures Admits(h, t, p) <==> t >= now + Wait(h, now, p)
  {
    if Admits(h, now, p) {
      StaysAdmitted(h, now, t, p);
    } else {
      RefusedUntil(h, now, p, t);
    }
  }

  /** With the histories at rest, both limiters admit from FirstOpen on and not before. The
      longer wait, counted from the second reading, reaches that instant, and overshoots it
      by no more than the time between the readings: not at all if they are equal. */
  lemma LongerWaitIsExact(h: Pair, at: Reading, t: int, ps: Policies)
    requires GoodPair(h, at, ps) && !Admitted(h, at, ps) && at.emailAt <= t
    ensures 0 < LongerWait(h, at, ps)
    ensures BothAdmit(h, t, ps) <==> t >= FirstOpen(h, at, ps)
    ensures FirstOpen(h, at, ps) <= at.emailAt + LongerWait(h, at, ps)
                                 <= FirstOpen(h, at, ps) + (at.emailAt - at.ipAt)
  {
    OpensExactly(h.ip, at.ipAt, t, ps.ip);
    OpensExactly(h.email, at.emailAt, t, ps.email);
  }

  /** One (ip, email) pair alone on its keys: however it keeps trying after a refusal, every
      attempt whose second check comes before FirstOpen is turned away and leaves no trace,
      and both limiters admit at exactly the instants from then on. */
  lemma {:induction false} RetryAfterIsFirstAdmission(h: Pair, at: Reading, clocks: seq<Clock>, t: int, ps: Policies)
    requires GoodPair(h, at, ps) && !Admitted(h, at, ps)
    requires forall i :: 0 <= i < |clocks| ==> InTime(clocks[i])
                                                 && at.emailAt <= clocks[i].check.ipAt
                                                 && clocks[i].check.emailAt < FirstOpen(h, at, ps)
    requires at.emailAt <= t
    ensures Attempts(h, clocks, ps) == h
    ensures BothAdmit(Attempts(h, clocks, ps), t, ps) <==> t >= FirstOpen(h, at, ps)
    decreases |clocks|
  {
    LongerWaitIsExact(h, at, t, ps);
    if clocks == [] {
    } else {
      var again := clocks[0].check;
      OpensExactly(h.ip, at.ipAt, again.ipAt, ps.ip);
      OpensExactly(h.email, at.emailAt, again.emailAt, ps.email);
      RetryAfterIsFirstAdmission(h, at, clocks[1..], t, ps);
    }
  }

  /** A client that waits as many seconds as the header says, from the second check on, finds
      both limiters open. When the two readings agree no smaller number of seconds would do. */
  lemma RetryAfterIsLeastSeconds(h: Pair, at: Reading, seconds: nat, ps: Policies)
    requires GoodPair(h, at, ps) && !Admitted(h, at, ps)
    ensures seconds >= RetryAfterSeconds(LongerWait(h, at, ps)) ==>
      BothAdmit(h, at.emailAt + seconds * SECOND, ps)
    ensures at.ipAt == at.emailAt ==>
      (BothAdmit(h, at.emailAt + seconds * SECOND, ps) <==> seconds >= RetryAfterSeconds(LongerWait(h, at, ps)))
  {
    LongerWaitIsExact(h, at, at.emailAt + seconds * SECOND, ps);
  }

  datatype Credentials = UnknownEmail | WrongPassword | Right(user: int)

  datatype LoginReply = TooMany(seconds: int) | Invalid | LoggedIn(jti: string) | Failed

  class LoginHandler {
    const ipLimiter: Limiter
    const emailLimiter: Limiter
    const sessions: Sessions.SessionServer

    constructor (ipLimiter: Limiter, emailLimiter: Limiter, sessions: Sessions.SessionServer)
      ensures this.ipLimiter == ipLimiter && this.emailLimiter == emailLimiter && this.sessions == sessions
    {
      this.ipLimiter, this.emailLimiter, this.sessions := ipLimiter, emailLimiter, sessions;
    }

    ghost predicate Ready(at: Reading)
      reads ipLimiter, emailLimiter
    {
      && ipLimiter != emailLimiter
      && ipLimiter.Valid() && ipLimiter.clock <= at.ipAt
      && emailLimiter.Valid() && emailLimiter.clock <= at.emailAt
    }

    ghost function Judged(ipKey: string, emailKey: string): Pair
      reads ipLimiter, emailLimiter
    {
      Pair(Of(ipLimiter.history, ipKey), Of(emailLimiter.history, emailKey))
    }

    ghost function Limits(): Policies {
      Policies(ipLimiter.policy, emailLimiter.policy)
    }

    method LoginBlocked(ipKey: string, emailKey: string, at: Reading) returns (wait: int, blocked: bool)
      requires Ready(at)
      modifies ipLimiter, emailLimiter
      ensures Ready(at)
      ensures ipLimiter.history == old(ipLimiter.history) && emailLimiter.history == old(emailLimiter.history)
      ensures blocked == !Admitted(Judged(ipKey, emailKey), at, Limits())
      ensures wait == LongerWait(Judged(ipKey, emailKey), at, Limits())
    {
      var ipOK, ipWait := ipLimiter.Check(ipKey, at.ipAt);
      var emailOK, emailWait := emailLimiter.Check(emailKey, at.emailAt);
      if ipOK && emailOK {
        return 0, false;
      }
      return Max(ipWait, emailWait), true;
    }

    method RecordLoginFailure(ipKey: string, emailKey: string, at: Reading)
      requires Ready(at)
      modifies ipLimiter, emailLimiter
      ensures Ready(at)
      ensures ipLimiter.history == Apply(old(ipLimiter.history), At(at.ipAt, Record_(ipKey)), ipLimiter.policy)
      ensures emailLimiter.history ==
        Apply(old(emailLimiter.history), At(at.emailAt, Record_(emailKey)), emailLimiter.policy)
    {
      ipLimiter.Record(ipKey, at.ipAt);
      emailLimiter.Record(emailKey, at.emailAt);
    }

    /** A refused attempt touches nothing; a wrong one is counted against both keys, the
        same whether the email is known or not; a right one clears both and opens a session. */
    method Authenticate(ipKey: string, emailKey: string, credentials: Credentials, at: Clock,
                        newJti: string, newFamily: string, purgeFails: bool, issueFails: bool, signFails: bool)
      returns (reply: LoginReply)
      requires Ready(at.check) && InTime(at)
      modifies ipLimiter, emailLimiter, sessions.repo
      ensures Ready(at.record)
      ensures reply.TooMany? <==> !old(Admitted(Judged(ipKey, emailKey), at.check, Limits()))
      ensures reply.TooMany? ==>
        && reply.seconds == RetryAfterSeconds(old(LongerWait(Judged(ipKey, emailKey), at.check, Limits())))
        && ipLimiter.history == old(ipLimiter.history) && emailLimiter.history == old(emailLimiter.history)
      ensures reply.Invalid? ==>
        && !credentials.Right?
        && Judged(ipKey, emailKey) == Attempt(old(Judged(ipKey, emailKey)), at, Limits())
        && ipLimiter.history == Apply(old(ipLimiter.history), At(at.record.ipAt, Record_(ipKey)), ipLimiter.policy)
        && emailLimiter.history ==
           Apply(old(emailLimiter.history), At(at.record.emailAt, Record_(emailKey)), emailLimiter.policy)
      ensures !reply.LoggedIn? && !reply.Failed? ==> sessions.repo.rows == old(sessions.repo.rows)
      ensures reply.LoggedIn? || reply.Failed? ==>
        && credentials.Right?
        && ipLimiter.history == old(ipLimiter.history) - {ipKey}
        && emailLimiter.history == old(emailLimiter.history) - {emailKey}
        && (sessions.repo.rows, if reply.LoggedIn? then Sessions.Refreshed(reply.jti) else Sessions.ServerError)
           == Sessions.OpenStep(old(sessions.repo.rows), credentials.user, newFamily, newJti, !purgeFails,
                                at.session, sessions.cfg, issueFails, signFails)
      ensures reply.Failed? <==>
        && old(Admitted(Judged(ipKey, emailKey), at.check, Limits())) && credentials.Right?
        && (signFails || !SessionAnswers.Storable(old(sessions.repo.rows), newJti, !purgeFails, at.session, issueFails))
      ensures credentials.Right? && newJti !in old(sessions.repo.rows) && !issueFails && !signFails ==>
        reply.TooMany? || reply == LoggedIn(newJti)
      ensures reply.LoggedIn? ==>
        && reply.jti == newJti && newJti in sessions.repo.rows
        && sessions.repo.rows[newJti]
           == RefreshTable.Row(newFamily, credentials.user, at.session + sessions.cfg.lifetime, None)
        && (Sessions.ValidConfig(sessions.cfg) ==>
              Sessions.Verdict(sessions.repo.rows, newJti, at.session, sessions.cfg) == RefreshDecision.Accept)
    {
      var wait, blocked := LoginBlocked(ipKey, emailKey, at.check);
      if blocked {
        var seconds := (wait + SECOND - 1) / SECOND;
        if seconds < 1 {
          seconds := 1;
        }
        return TooMany(seconds);
      }
      match credentials {
        case UnknownEmail =>
          RecordLoginFailure(ipKey, emailKey, at.record);
          return Invalid;
        case WrongPassword =>
          RecordLoginFailure(ipKey, emailKey, at.record);
          return Invalid;
        case Right(user) =>
          ipLimiter.Reset(ipKey);
          emailLimiter.Reset(emailKey);
          var session := sessions.OpenSession(user, newJti, newFamily, at.session, purgeFails, issueFails, signFails);
          reply := if session.Refreshed? then LoggedIn(session.jti) else Failed;
      }
    }
  }

  // --------------------------------------------------------------- the username gate

  function GateCall(h: seq<int>, checkedAt: int, recordedAt: int, p: Policy): (seq<int>, bool) {
    if Admits(h, checkedAt, p) then (h + [recordedAt], false) else (h, true)
  }

  /** usernameCheckBlocked: two lock acquisitions, so two clock readings. An admitted call
      is always recorded. */
  method UsernameCheckBlocked(limiter: Limiter, ip: string, checkedAt: int, recordedAt: int)
    returns (wait: int, blocked: bool)
    requires limiter.Valid() && limiter.clock <= checkedAt <= recordedAt
    modifies limiter
    ensures limiter.Valid()
    ensures limiter.clock == if blocked then checkedAt else recordedAt
    ensures blocked <==> !old(Admits(Of(limiter.history, ip), checkedAt, limiter.policy))
    ensures Of(limiter.history, ip) == old(Of(limiter.history, ip)) + if blocked then [] else [recordedAt]
    ensures (Of(limiter.history, ip), blocked)
         == GateCall(old(Of(limiter.history, ip)), checkedAt, recordedAt, limiter.policy)
    ensures forall other | other != ip :: Of(limiter.history, other) == old(Of(limiter.history, other))
    ensures wait == old(Wait(Of(limiter.history, ip), checkedAt, limiter.policy))
  {
    var ok, retryAfter := limiter.Check(ip, checkedAt);
    if !ok {
      return retryAfter, true;
    }
    RunsAreGood(limiter.history, checkedAt, ip, limiter.policy);
    StaysAdmitted(Of(limiter.history, ip), checkedAt, recordedAt, limiter.policy);
    limiter.Record(ip, recordedAt);
    return 0, false;
  }

  datatype Call = Call(checkedAt: int, recordedAt: int)

  ghost predicate InOrder(now: int, calls: seq<Call>)
    decreases |calls|
  {
    calls == [] || (now <= calls[0].checkedAt <= calls[0].recordedAt && InOrder(calls[0].recordedAt, calls[1..]))
  }

  /** The history after a run of calls, and the instants at which one was admitted. */
  function GateRun(h: seq<int>, calls: seq<Call>, p: Policy): (seq<int>, seq<int>)
    decreases |calls|
  {
    if calls == [] then (h, [])
    else
      var (h', blocked) := GateCall(h, calls[0].checkedAt, calls[0].recordedAt, p);
      var rest := GateRun(h', calls[1..], p);
      (rest.0, (if blocked then [] else [calls[0].recordedAt]) + rest.1)
  }

  function EndOf(now: int, calls: seq<Call>): int
    decreases |calls|
  {
    if calls == [] then now else EndOf(calls[0].recordedAt, calls[1..])
  }

  lemma GateCallGood(h: seq<int>, now: int, call: Call, p: Policy)
    requires ValidPolicy(p) && Good(h, now, p) && now <= call.checkedAt <= call.recordedAt
    ensures var (h', blocked) := GateCall(h, call.checkedAt, call.recordedAt, p);
      h' == h + (if blocked then [] else [call.recordedAt]) && Good(h', call.recordedAt, p)
  {
    if Admits(h, call.checkedAt, p) {
      StaysAdmitted(h, call.checkedAt, call.recordedAt, p);
      RecordKeepsGood(h, now, call.recordedAt, p);
    }
  }

  lemma {:induction false} GateRunGood(h: seq<int>, now: int, calls: seq<Call>, p: Policy)
    requires ValidPolicy(p) && Good(h, now, p) && InOrder(now, calls)
    ensures GateRun(h, calls, p).0 == h + GateRun(h, calls, p).1
    ensures Good(GateRun(h, calls, p).0, EndOf(now, calls), p)
    decreases |calls|
  {
    if calls == [] {
    } else {
      var call := calls[0];
      GateCallGood(h, now, call, p);
      GateRunGood(GateCall(h, call.checkedAt, call.recordedAt, p).0, call.recordedAt, calls[1..], p);
    }
  }

  /** Sequential calls of the username check are admitted at most max times per window. */
  lemma UsernameChecksPerWindow(start: int, calls: seq<Call>, from: int, p: Policy)
    requires ValidPolicy(p) && InOrder(start, calls)
    ensures |Within(GateRun([], calls, p).1, from, p)| <= p.max
  {
    GateRunGood([], start, calls, p);
    assert GateRun([], calls, p).0 == GateRun([], calls, p).1;
    AtMostMaxPerWindow(GateRun([], calls, p).0, EndOf(start, calls), p, from);
  }

  lemma {:induction false} InOrderBefore(now: int, calls: seq<Call>, next: Call)
    requires InOrder(now, calls + [next])
    ensures InOrder(now, calls) && EndOf(now, calls) <= next.checkedAt
    decreases |calls|
  {
    if calls == [] {
      assert [] + [next] == [next];
    } else {
      assert (calls + [next])[1..] == calls[1..] + [next];
      InOrderBefore(calls[0].recordedAt, calls[1..], next);
    }
  }

  /** Every entry less than a window old is counted, and there are at most max of them. */
  lemma RefusedIffFull(h: seq<int>, then_: int, now: int, p: Policy)
    requires ValidPolicy(p) && Good(h, then_, p) && then_ <= now
    ensures !Admits(h, now, p) <==> |Recent(h, now, p)| == p.max
  {
    CountedAtMostMax(h, then_, now, p);
    NewerIsSuffix(h, now - p.window);
    var n := |Newer(h, now - p.window)|;
    ExactRange(Recent(h, now, p), |h| - n, n);
  }

  /** After any sequential calls the next one is refused if and only if max calls were admitted
      less than a window before its check. */
  lemma RefusedIffMaxAdmitted(start: int, calls: seq<Call>, next: Call, p: Policy)
    requires ValidPolicy(p) && InOrder(start, calls + [next])
    ensures var (h, admitted) := GateRun([], calls, p);
      GateCall(h, next.checkedAt, next.recordedAt, p)
      == if |Recent(admitted, next.checkedAt, p)| == p.max then (admitted, true)
         else (admitted + [next.recordedAt], false)
  {
    InOrderBefore(start, calls, next);
    GateRunGood([], start, calls, p);
    var (h, admitted) := GateRun([], calls, p);
    assert h == admitted;
    RefusedIffFull(h, EndOf(start, calls), next.checkedAt, p);
  }

  // --------------------------------------------------------- overlapping username checks

  /** Requests from one address in progress between their Check and their Record: `current`
      passed the check since the last event was counted, `overtaken` before it. */
  datatype Gate = Gate(h: seq<int>, current: set<nat>, overtaken: set<nat>)

  datatype Half = Begin(who: nat, now: int) | Finish(who: nat, now: int)

  predicate Possible(g: Gate, a: Half, now: int) {
    now <= a.now && (a.Begin? <==> a.who !in g.current + g.overtaken)
  }

  predicate Passes(g: Gate, a: Half, p: Policy) {
    a.Begin? && Admits(g.h, a.now, p)
  }

  function Advance(g: Gate, a: Half, p: Policy): Gate {
    match a
    case Begin(who, now) => if Passes(g, a, p) then g.(current := g.current + {who}) else g
    case Finish(who, now) =>
      if Admits(g.h, now, p)
      then Gate(Record(g.h, now, p), {}, g.current + g.overtaken - {who})
      else Gate(Record(g.h, now, p), g.current - {who}, g.overtaken - {who})
  }

  /** A run in which at most `limit` requests are ever in progress together. */
  ghost predicate Overlapping(g: Gate, halves: seq<Half>, now: int, limit: nat, p: Policy)
    decreases |halves|
  {
    && |g.current + g.overtaken| <= limit
    && (halves == [] || (
          && Possible(g, halves[0], now)
          && Overlapping(Advance(g, halves[0], p), halves[1..], halves[0].now, limit, p)))
  }

  /** How many checks of the run are passed during one window. */
  function Passed(g: Gate, halves: seq<Half>, from: int, p: Policy): nat
    decreases |halves|
  {
    if halves == [] then 0
    else (if Passes(g, halves[0], p) && from <= halves[0].now < from + p.window then 1 else 0)
         + Passed(Advance(g, halves[0], p), halves[1..], from, p)
  }

  /** What has passed in the window so far is covered by `limit` for each counted event and
      the requests that no event has overtaken. */
  ghost predicate Covered(g: Gate, passed: nat, now: int, from: int, limit: nat, p: Policy) {
    && Good(g.h, now, p)
    && g.current !! g.overtaken
    && (g.current != {} ==> Admits(g.h, now, p))
    && passed <= limit * |Newer(g.h, from - 1)| + |g.current|
    && passed <= limit * p.max
    && (now < from ==> passed == 0)
  }

  lemma OneMoreEvent(limit: nat, events: nat, max: nat)
    requires events < max
    ensures limit * events + limit == limit * (events + 1) <= limit * max
  {
  }

  lemma {:induction false} NewerIsNoLonger(s: seq<int>, cutoff: int)
    ensures |Newer(s, cutoff)| <= |s|
  {
    if s == [] {
    } else {
      NewerIsNoLonger(s[1..], cutoff);
    }
  }

  /** A check passed inside the window has fewer than max of the window's events before it. */
  lemma RoomLeft(h: seq<int>, now: int, from: int, p: Policy)
    requires Admits(h, now, p) && now < from + p.window
    ensures |Newer(h, from - 1)| < p.max
  {
    NewerOfNewer(h, now - p.window, from - 1);
    NewerIsNoLonger(Newer(h, now - p.window), from - 1);
  }

  lemma BeginCovered(g: Gate, a: Half, passed: nat, now: int, from: int, limit: nat, p: Policy)
    requires ValidPolicy(p) && Covered(g, passed, now, from, limit, p)
    requires Possible(g, a, now) && Passes(g, a, p) && |g.current| < limit
    ensures Covered(Advance(g, a, p), passed + if from <= a.now < from + p.window then 1 else 0, a.now, from, limit, p)
  {
    if from <= a.now < from + p.window {
      RoomLeft(g.h, a.now, from, p);
      OneMoreEvent(limit, |Newer(g.h, from - 1)|, p.max);
    }
  }

  lemma OneMoreCounted(h: seq<int>, now: int, from: int, passed: nat, current: nat, limit: nat)
    requires passed <= limit * |Newer(h, from - 1)| + current && current <= limit
    requires now < from ==> passed == 0
    ensures passed <= limit * |Newer(h + [now], from - 1)|
  {
    NewerAppend(h, now, from - 1);
    var events := |Newer(h, from - 1)|;
    OneMoreEvent(limit, events, events + 1);
  }

  lemma FinishCovered(g: Gate, a: Half, passed: nat, now: int, from: int, limit: nat, p: Policy)
    requires ValidPolicy(p) && Covered(g, passed, now, from, limit, p)
    requires Possible(g, a, now) && a.Finish? && |g.current| <= limit
    requires g.current != {} ==> Admits(g.h, a.now, p)
    ensures Covered(Advance(g, a, p), passed, a.now, from, limit, p)
  {
    RecordKeepsGood(g.h, now, a.now, p);
    if Admits(g.h, a.now, p) {
      OneMoreCounted(g.h, a.now, from, passed, |g.current|, limit);
    }
  }

  lemma CoveredNext(g: Gate, a: Half, passed: nat, now: int, from: int, limit: nat, p: Policy)
    requires ValidPolicy(p) && Covered(g, passed, now, from, limit, p) && Possible(g, a, now)
    requires |g.current + g.overtaken| <= limit && |Advance(g, a, p).current + Advance(g, a, p).overtaken| <= limit
    ensures var passed' := passed + if Passes(g, a, p) && from <= a.now < from + p.window then 1 else 0;
      Covered(Advance(g, a, p), passed', a.now, from, limit, p)
  {
    if g.current != {} && Admits(g.h, now, p) {
      StaysAdmitted(g.h, now, a.now, p);
    }
    SubsetSize(g.current, g.current + g.overtaken);
    if Passes(g, a, p) {
      SubsetSize(g.current + {a.who}, Advance(g, a, p).current + Advance(g, a, p).overtaken);
      BeginCovered(g, a, passed, now, from, limit, p);
    } else if a.Finish? {
      FinishCovered(g, a, passed, now, from, limit, p);
    }
  }

  lemma {:induction false} CoveredRun(g: Gate, halves: seq<Half>, passed: nat, now: int, from: int, limit: nat,
                                      p: Policy)
    requires ValidPolicy(p) && Covered(g, passed, now, from, limit, p) && Overlapping(g, halves, now, limit, p)
    ensures passed + Passed(g, halves, from, p) <= limit * p.max
    decreases |halves|
  {
    if halves == [] {
    } else {
      var a := halves[0];
      CoveredNext(g, a, passed, now, from, limit, p);
      var passed' := passed + if Passes(g, a, p) && from <= a.now < from + p.window then 1 else 0;
      CoveredRun(Advance(g, a, p), halves[1..], passed', a.now, from, limit, p);
    }
  }

  /** Overlapping calls are admitted at most max times per window for each of them that may be
      in progress at once. */
  lemma OverlappingChecksPerWindow(start: int, halves: seq<Half>, from: int, limit: nat, p: Policy)
    requires ValidPolicy(p) && Overlapping(Gate([], {}, {}), halves, start, limit, p)
    ensures Passed(Gate([], {}, {}), halves, from, p) <= limit * p.max
  {
    CoveredRun(Gate([], {}, {}), halves, 0, start, from, limit, p);
  }

  /** `k` events counted at time 0, and nothing in progress. */
  function Counted(k: nat): Gate {
    Gate(seq(k, _ => 0), {}, {})
  }

  lemma CountOne(k: nat, p: Policy)
    requires ValidPolicy(p) && k < p.max
    ensures Admits(Counted(k).h, 0, p)
    ensures var g := Advance(Counted(k), Begin(1, 0), p);
      && g == Counted(k).(current := {1})
      && Advance(g, Finish(1, 0), p) == Counted(k + 1)
      && Advance(g, Begin(2, 0), p) == Counted(k).(current := {1, 2})
  {
    NewerIsNoLonger(Counted(k).h, 0 - p.window);
    assert Counted(k).h + [0] == Counted(k + 1).h;
    var g := Advance(Counted(k), Begin(1, 0), p);
    assert {} + {1} == {1} && {1} + {2} == {1, 2};
    assert g.current + g.overtaken - {1} == {};
  }

  lemma TwoOverlap(k: nat, p: Policy)
    requires ValidPolicy(p) && k < p.max
    ensures Overlapping(Counted(k), [Begin(1, 0), Begin(2, 0)], 0, 2, p)
    ensures Passed(Counted(k), [Begin(1, 0), Begin(2, 0)], 0, p) == 2
  {
    CountOne(k, p);
    var g, g2 := Counted(k).(current := {1}), Counted(k).(current := {1, 2});
    assert [Begin(1, 0), Begin(2, 0)][1..] == [Begin(2, 0)] && [Begin(2, 0)][1..] == [];
    assert g.current + g.overtaken == {1} && g2.current + g2.overtaken == {1, 2};
    assert Overlapping(g2, [], 0, 2, p);
    assert Overlapping(g, [Begin(2, 0)], 0, 2, p) && Passed(g, [Begin(2, 0)], 0, p) == 1;
  }

  lemma OneThenMore(k: nat, rest: seq<Half>, p: Policy) returns (halves: seq<Half>)
    requires ValidPolicy(p) && k < p.max && Overlapping(Counted(k + 1), rest, 0, 2, p)
    ensures Overlapping(Counted(k), halves, 0, 2, p)
    ensures Passed(Counted(k), halves, 0, p) == 1 + Passed(Counted(k + 1), rest, 0, p)
  {
    CountOne(k, p);
    var g, tail := Counted(k).(current := {1}), [Finish(1, 0)] + rest;
    halves := [Begin(1, 0)] + tail;
    assert halves[1..] == tail && tail[1..] == rest;
    assert g.current + g.overtaken == {1};
    assert Overlapping(g, tail, 0, 2, p);
  }

  /** The sequential bound is not theirs: under every policy, sequential calls until there is
      room for one event more, and then two that overlap, make max + 1 admitted at one
      instant. */
  lemma {:induction false} OneTooMany(k: nat, p: Policy) returns (halves: seq<Half>)
    requires ValidPolicy(p) && k < p.max
    ensures Overlapping(Counted(k), halves, 0, 2, p)
    ensures Passed(Counted(k), halves, 0, p) == p.max - k + 1
    decreases p.max - k
  {
    if k + 1 == p.max {
      TwoOverlap(k, p);
      halves := [Begin(1, 0), Begin(2, 0)];
    } else {
      var rest := OneTooMany(k + 1, p);
      halves := OneThenMore(k, rest, p);
    }
  }

  lemma {:induction false} MoreMayOverlap(g: Gate, halves: seq<Half>, now: int, limit: nat, more: nat, p: Policy)
    requires Overlapping(g, halves, now, limit, p) && limit <= more
    ensures Overlapping(g, halves, now, more, p)
    decreases |halves|
  {
    if halves == [] {
    } else {
      MoreMayOverlap(Advance(g, halves[0], p), halves[1..], halves[0].now, limit, more, p);
    }
  }

  /** With at most `limit` calls in progress at once, at most max pass per window. */
  ghost predicate WindowHolds(limit: nat, p: Policy) {
    forall start, halves, from | Overlapping(Gate([], {}, {}), halves, start, limit, p) ::
      Passed(Gate([], {}, {}), halves, from, p) <= p.max
  }

  /** The limit the username check is written for holds, under any policy, exactly when no two
      calls are in progress at once. */
  lemma OverlapBoundIff(limit: nat, p: Policy)
    requires ValidPolicy(p)
    ensures WindowHolds(limit, p) <==> limit <= 1
  {
    var g := Gate([], {}, {});
    if limit <= 1 {
      forall start, halves, from | Overlapping(g, halves, start, limit, p)
        ensures Passed(g, halves, from, p) <= p.max
      {
        MoreMayOverlap(g, halves, start, limit, 1, p);
        OverlappingChecksPerWindow(start, halves, from, 1, p);
      }
    } else {
      var halves := OneTooMany(0, p);
      assert Counted(0) == g;
      MoreMayOverlap(g, halves, 0, 2, limit, p);
      assert Passed(g, halves, 0, p) == p.max + 1;
    }
  }
}
