/** The rule for a presented refresh token (internal/refresh/decide.go). Times are
    integers (nanoseconds); a duration is the difference of two of them. */
module RefreshDecision {
  import opened Wrappers

  /** What the database knows about a presented token. */
  datatype State = State(found: bool, expiresAt: int, revokedAt: Option<int>, familyActive: bool)

  datatype Decision = Accept | RejectUnknown | RejectExpired | RejectRevoked | ReuseDetected

  function Decide(state: State, now: int, grace: int): Decision {
    if !state.found then RejectUnknown
    else if !(now < state.expiresAt) then RejectExpired
    else if state.revokedAt.Some? then
      if !state.familyActive then RejectRevoked
      else if now - state.revokedAt.value <= grace then Accept
      else ReuseDetected
    else Accept
  }

  /** How far along its life a verdict is. For one snapshot it never goes back. */
  function Stage(d: Decision): nat {
    match d
    case Accept => 0
    case RejectRevoked => 1
    case ReuseDetected => 1
    case RejectExpired => 2
    case RejectUnknown => 3
  }

  /** Over time a fixed snapshot only moves from accepted to refused, and from either to
      expired, so the instants at which it is accepted have no gap. A longer grace never
      turns an acceptance into a refusal, and changes nothing but the line between
      acceptance and reuse. */
  lemma VerdictOnlyAges(state: State, now: int, later: int, grace: int, longer: int)
    requires now <= later && grace <= longer
    ensures Stage(Decide(state, now, grace)) <= Stage(Decide(state, later, grace))
    ensures Decide(state, now, grace) == Accept ==> Decide(state, now, longer) == Accept
    ensures Decide(state, now, grace) != Decide(state, now, longer)
        ==> Decide(state, now, grace) == ReuseDetected && Decide(state, now, longer) == Accept
  {
  }
}
