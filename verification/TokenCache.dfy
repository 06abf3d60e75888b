/** internal/igdb/client.go: the cached access token, refreshed under a mutex held across
    the fetch, and the one retry of `do`. */
module TokenCache {
  import opened Wrappers
  import Pacing

  const REFRESH_MARGIN: int := 60 * SECOND

  /** What the token endpoint answers, if it is asked. A grant of "" is an error. */
  datatype Fetch = Refused | Granted(token: string, expiresIn: int)

  datatype Cache = Cache(token: string, expiresAt: int)

  /** Whether a critical section asks upstream: the caller was rejected with the token still
      cached, or reported nothing and the cached token is missing or near its expiry. */
  predicate NeedsFetch(c: Cache, stale: string, now: int) {
    if stale != "" then c.token == stale
    else !(c.token != "" && now < c.expiresAt - REFRESH_MARGIN)
  }

  predicate Fetches(c: Cache, stale: string, now: int, up: Fetch) {
    NeedsFetch(c, stale, now) && up.Granted? && up.token != ""
  }

  /** The cache after one critical section, and the token handed out, if any. */
  function Got(c: Cache, stale: string, now: int, up: Fetch, later: int): (Cache, Option<string>) {
    if !NeedsFetch(c, stale, now) then (c, Some(c.token))
    else if !Fetches(c, stale, now, up) then (c, None)
    else (Cache(up.token, later + up.expiresIn * SECOND), Some(up.token))
  }

  // ------------------------------------------------ every order of critical sections

  /** One getToken call. `later` is the second clock reading, after the fetch. */
  datatype Call = Call(stale: string, now: int, up: Fetch, later: int)

  /** The cache with its history: tokens granted so far, tokens replaced, in order, tokens
      reported stale, and cached tokens found within the margin of their expiry. */
  datatype History = History(cache: Cache, granted: set<string>, retired: seq<string>,
                             reported: set<string>, lapsed: set<string>, fetches: nat)

  const FRESH: History := History(Cache("", 0), {}, [], {}, {}, 0)

  function Step(h: History, call: Call): History {
    var fetched := Fetches(h.cache, call.stale, call.now, call.up);
    var next := Got(h.cache, call.stale, call.now, call.up, call.later).0;
    History(
      next,
      if fetched then h.granted + {next.token} else h.granted,
      if fetched && h.cache.token != "" then h.retired + [h.cache.token] else h.retired,
      if call.stale != "" then h.reported + {call.stale} else h.reported,
      if call.stale == "" && h.cache.token != "" && !(call.now < h.cache.expiresAt - REFRESH_MARGIN)
      then h.lapsed + {h.cache.token} else h.lapsed,
      if fetched then h.fetches + 1 else h.fetches)
  }

  /** A caller only reports a token it was handed, and upstream never reissues one. */
  ghost predicate Honest(h: History, call: Call) {
    && (call.stale != "" ==> call.stale in h.granted)
    && (Fetches(h.cache, call.stale, call.now, call.up) ==> call.up.token !in h.granted)
  }

  ghost predicate HonestRun(h: History, calls: seq<Call>)
    decreases |calls|
  {
    calls == [] || (Honest(h, calls[0]) && HonestRun(Step(h, calls[0]), calls[1..]))
  }

  function Run(h: History, calls: seq<Call>): History
    decreases |calls|
  {
    if calls == [] then h else Run(Step(h, calls[0]), calls[1..])
  }

  ghost predicate Distinct(s: seq<string>) {
    forall i, j :: 0 <= i < j < |s| ==> s[i] != s[j]
  }

  ghost predicate Inv(h: History) {
    && (h.cache.token == "" ==> h.granted == {} && h.retired == [])
    && (h.cache.token != "" ==> h.cache.token in h.granted && h.cache.token !in h.retired)
    && (forall t | t in h.retired :: t in h.granted && t in h.reported + h.lapsed)
    && Distinct(h.retired)
    && h.fetches == |h.retired| + if h.cache.token == "" then 0 else 1
  }

  lemma InvStep(h: History, call: Call)
    requires Inv(h) && Honest(h, call)
    ensures Inv(Step(h, call))
  {
    forall t | t in Step(h, call).retired ensures t in h.retired || t == h.cache.token {
    }
  }

  lemma {:induction false} InvRun(h: History, calls: seq<Call>)
    requires Inv(h) && HonestRun(h, calls)
    ensures Inv(Run(h, calls))
    decreases |calls|
  {
    if calls == [] {
    } else {
      InvStep(h, calls[0]);
      InvRun(Step(h, calls[0]), calls[1..]);
    }
  }

  lemma {:induction false} RunSnoc(h: History, calls: seq<Call>, last: Call)
    ensures Run(h, calls + [last]) == Step(Run(h, calls), last)
    decreases |calls|
  {
    if calls == [] {
      assert [] + [last] == [last] && [last][1..] == [];
    } else {
      assert (calls + [last])[1..] == calls[1..] + [last];
      RunSnoc(Step(h, calls[0]), calls[1..], last);
    }
  }

  lemma {:induction false} DistinctSize(s: seq<string>, within: set<string>)
    requires Distinct(s) && forall t | t in s :: t in within
    ensures |s| <= |within|
  {
    if s == [] {
    } else {
      forall t | t in s[1..] ensures t in within - {s[0]} {
      }
      DistinctSize(s[1..], within - {s[0]});
    }
  }

  /** Single flight, over every order of critical sections: no token is replaced twice, and
      there are at most as many successful fetches as the first one, distinct tokens
      reported stale, and tokens that reached the margin. */
  lemma SingleFlight(calls: seq<Call>)
    requires HonestRun(FRESH, calls)
    ensures var h := Run(FRESH, calls);
      Distinct(h.retired) && h.fetches <= 1 + |h.reported| + |h.lapsed|
  {
    InvRun(FRESH, calls);
    var h := Run(FRESH, calls);
    DistinctSize(h.retired, h.reported + h.lapsed);
    assert |h.reported + h.lapsed| <= |h.reported| + |h.lapsed|;
  }

  /** At any point of any run a successful call is handed a real token, and after a
      rejection a different one: the retry of `do` is never made with the rejected token. */
  lemma HandedARealToken(calls: seq<Call>, call: Call)
    requires HonestRun(FRESH, calls) && Honest(Run(FRESH, calls), call)
    ensures var got := Got(Run(FRESH, calls).cache, call.stale, call.now, call.up, call.later).1;
      got.Some? ==> got.value != "" && (call.stale != "" ==> got.value != call.stale)
  {
    InvRun(FRESH, calls);
  }

  /** Call k of the run was granted the token for so long. */
  predicate GrantedAt(calls: seq<Call>, k: nat, token: string, expiresAt: int)
    requires k < |calls|
  {
    var call := calls[k];
    call.up.Granted? && call.up.token == token && expiresAt == call.later + call.up.expiresIn * SECOND
  }

  ghost predicate WasGranted(calls: seq<Call>, c: Cache) {
    exists k: nat | k < |calls| :: GrantedAt(calls, k, c.token, c.expiresAt)
  }

  /** What is cached was granted to some call, and expires when that grant does. */
  lemma {:induction false} CachedWasGranted(calls: seq<Call>)
    ensures var c := Run(FRESH, calls).cache; c.token != "" ==> WasGranted(calls, c)
  {
    if calls == [] {
    } else {
      var n := |calls| - 1;
      var init, last := calls[..n], calls[n];
      assert init + [last] == calls;
      RunSnoc(FRESH, init, last);
      CachedWasGranted(init);
      var before, after := Run(FRESH, init).cache, Run(FRESH, calls).cache;
      if after != before {
        assert GrantedAt(calls, n, after.token, after.expiresAt);
      } else if after.token != "" {
        var k: nat :| k < n && GrantedAt(init, k, after.token, after.expiresAt);
        assert GrantedAt(calls, k, after.token, after.expiresAt);
      }
    }
  }

  /** In every run an ordinary read hands out a cached token only if the grant it came with
      has more than a minute to go, and then leaves the cache alone; otherwise it hands out,
      and caches, what upstream grants in this very call. It fails only when upstream does. */
  lemma OrdinaryReadIsFresh(calls: seq<Call>, now: int, up: Fetch, later: int)
    ensures var cache := Run(FRESH, calls).cache;
      var (next, got) := Got(cache, "", now, up, later);
      match got
      case Some(token) =>
        || (next == cache && token != "" && exists k: nat, expiresAt | k < |calls| ::
              GrantedAt(calls, k, token, expiresAt) && now < expiresAt - 60 * SECOND)
        || (up.Granted? && up.token == token != "" && next == Cache(token, later + up.expiresIn * SECOND)
            && (cache.token != "" ==> cache.expiresAt <= now + 60 * SECOND))
      case None => next == cache && (up.Refused? || up.token == "")
  {
    CachedWasGranted(calls);
  }

  /** In every run a read after a rejection hands out the token cached by now if that is
      another one, without asking upstream, and otherwise what upstream grants. */
  lemma ForcedReadReplaces(calls: seq<Call>, stale: string, now: int, up: Fetch, later: int)
    requires stale != ""
    ensures var cache := Run(FRESH, calls).cache;
      Got(cache, stale, now, up, later) ==
        if cache.token != stale then (cache, Some(cache.token))
        else if up.Granted? && up.token != "" then (Cache(up.token, later + up.expiresIn * SECOND), Some(up.token))
        else (cache, None)
  {
  }

  // ------------------------------------------------------------------- the client

  /** The answer of one POST to the API: nothing usable, or a status. */
  datatype Answer = Broken | Status(code: int)

  datatype Result = NotConfigured | Upstream | GaveUp | Body

  /** The cache after some critical sections. */
  function Caches(c: Cache, calls: seq<Call>): Cache
    decreases |calls|
  {
    if calls == [] then c
    else Caches(Got(c, calls[0].stale, calls[0].now, calls[0].up, calls[0].later).0, calls[1..])
  }

  /** The cache after one request's token reads, and the tokens it posted: a second read, told
      that the first token is stale, only after a 401, and a second post only if it succeeds.
      Other requests have their critical sections `before` the first read, and `between`. */
  function Exchange(c: Cache, before: seq<Call>, first: Call, between: seq<Call>, second: Call, answer: Answer)
    : (Cache, seq<string>)
  {
    var (mid, token) := Got(Caches(c, before), "", first.now, first.up, first.later);
    if token.None? then (mid, [])
    else if answer != Status(401) then (mid, [token.value])
    else
      var (last, retry) := Got(Caches(mid, between), token.value, second.now, second.up, second.later);
      (last, if retry.None? then [token.value] else [token.value] + [retry.value])
  }

  /** A request posts unless its first read fails, and once more if answered 401, and only
      then, unless its second read fails; and only upstream can make a read fail. */
  lemma PostsUnlessUpstreamFails(c: Cache, before: seq<Call>, first: Call, between: seq<Call>, second: Call,
                                 answer: Answer)
    ensures var posted := Exchange(c, before, first, between, second, answer).1;
      && |posted| <= 2
      && (posted == [] ==> first.up.Refused? || first.up.token == "")
      && (|posted| == 1 ==> answer != Status(401) || second.up.Refused? || second.up.token == "")
      && (|posted| == 2 ==> answer == Status(401))
  {
  }

  lemma {:induction false} RunAppend(h: History, a: seq<Call>, b: seq<Call>)
    requires HonestRun(h, a + b)
    ensures HonestRun(h, a) && HonestRun(Run(h, a), b) && Run(h, a + b) == Run(Run(h, a), b)
    decreases |a|
  {
    if a == [] {
      assert a + b == b;
    } else {
      assert (a + b)[1..] == a[1..] + b;
      RunAppend(Step(h, a[0]), a[1..], b);
    }
  }

  lemma {:induction false} CacheOfRun(h: History, calls: seq<Call>)
    ensures Run(h, calls).cache == Caches(h.cache, calls)
    decreases |calls|
  {
    if calls == [] {
    } else {
      CacheOfRun(Step(h, calls[0]), calls[1..]);
    }
  }

  /** Whatever other requests do before and between a request's two token reads, no token it
      posts is empty, and the retry never posts the rejected one. */
  lemma RetryPostsAnotherToken(earlier: seq<Call>, first: Call, between: seq<Call>, second: Call, answer: Answer)
    requires first.stale == "" && HonestRun(FRESH, earlier + [first] + between + [second])
    requires var token := Got(Caches(FRESH.cache, earlier), "", first.now, first.up, first.later).1;
      token.Some? ==> second.stale == token.value
    ensures var posted := Exchange(FRESH.cache, earlier, first, between, second, answer).1;
      && (forall i :: 0 <= i < |posted| ==> posted[i] != "")
      && (|posted| == 2 ==> posted[0] != posted[1])
  {
    var upToFirst := earlier + [first];
    RunAppend(FRESH, upToFirst + between, [second]);
    RunAppend(FRESH, upToFirst, between);
    RunAppend(FRESH, earlier, [first]);
    HandedARealToken(earlier, first);
    HandedARealToken(upToFirst + between, second);
    CacheOfRun(FRESH, earlier);
    assert [first][1..] == [];
    CacheOfRun(Run(FRESH, upToFirst), between);
  }

  class Client {
    const configured: bool
    const throttle: Pacing.Throttle
    var token: string
    var expiresAt: int

    constructor (configured: bool, throttle: Pacing.Throttle)
      ensures this.configured == configured && this.throttle == throttle
      ensures Cached() == FRESH.cache
    {
      this.configured, this.throttle := configured, throttle;
      token, expiresAt := "", 0;
    }

    function Cached(): Cache
      reads this
    {
      Cache(token, expiresAt)
    }

    method GetToken(stale: string, now: int, up: Fetch, later: int) returns (got: Option<string>)
      modifies this
      ensures (Cached(), got) == Got(old(Cached()), stale, now, up, later)
    {
      if stale != "" {
        if token != stale {
          return Some(token);
        }
      } else if token != "" && now < expiresAt - REFRESH_MARGIN {
        return Some(token);
      }
      if up.Refused? || up.token == "" {
        return None;
      }
      token := up.token;
      expiresAt := later + up.expiresIn * SECOND;
      return Some(token);
    }

    /** The critical sections of other requests, in the order in which they get the lock. */
    method Others(calls: seq<Call>)
      modifies this
      ensures Cached() == Caches(old(Cached()), calls)
    {
      for i := 0 to |calls|
        invariant Caches(Cached(), calls[i..]) == Caches(old(Cached()), calls)
      {
        assert calls[i..][1..] == calls[i + 1..];
        var _ := GetToken(calls[i].stale, calls[i].now, calls[i].up, calls[i].later);
      }
    }

    /** `first` and `second` are the token reads the request may make, `before` and `between`
        those that others make while it waits for its slot and while it posts, `answers` what
        the API says to the tokens posted. One slot is claimed, however many posts; a body
        comes only of a 200 to the last of at most two. */
    method Do(now: int, doneNow: bool, doneLater: bool, before: seq<Call>, first: Call, between: seq<Call>,
              second: Call, answers: (Answer, Answer))
      returns (result: Result, posted: seq<string>)
      requires throttle.Valid()
      modifies this, throttle
      ensures throttle.Valid()
      ensures throttle.arrivals == if configured then old(throttle.arrivals) + [now] else old(throttle.arrivals)
      ensures result.NotConfigured? <==> !configured
      ensures var slots := Pacing.Slots(throttle.arrivals, throttle.interval);
        result.GaveUp? <==> configured && (if slots[|slots| - 1] <= now then doneNow else doneLater)
      ensures (Cached(), posted) == if result.NotConfigured? || result.GaveUp? then (old(Cached()), [])
                                    else Exchange(old(Cached()), before, first, between, second, answers.0)
      ensures |posted| <= 2
      ensures result.Body? <==>
        || (|posted| == 1 && answers.0 == Status(200))
        || (|posted| == 2 && answers.1 == Status(200))
    {
      posted := [];
      if !configured {
        return NotConfigured, posted;
      }
      var _, outcome := throttle.Wait(now, doneNow, doneLater);
      if outcome.Cancelled? {
        return GaveUp, posted;
      }
      Others(before);
      var got := GetToken("", first.now, first.up, first.later);
      if got.None? {
        return Upstream, posted;
      }
      posted := [got.value];
      var answer := answers.0;
      if answer.Broken? {
        return Upstream, posted;
      }
      if answer.code == 401 {
        Others(between);
        got := GetToken(got.value, second.now, second.up, second.later);
        if got.None? {
          return Upstream, posted;
        }
        posted := posted + [got.value];
        answer := answers.1;
        if answer.Broken? {
          return Upstream, posted;
        }
      }
      return if answer.code == 200 then Body else Upstream, posted;
    }
  }
}
