/** The specification of the limiter: one key's full history of accepted events, never
    forgotten, judged by the entries strictly newer than now - window. */
module SlidingWindow {
  import opened Cardinality

  datatype Policy = Policy(max: nat, window: int)

  ghost predicate ValidPolicy(p: Policy) {
    1 <= p.max && 0 < p.window
  }

  ghost predicate Sorted(s: seq<int>) {
    forall i, j :: 0 <= i < j < |s| ==> s[i] <= s[j]
  }

  function Newer(s: seq<int>, cutoff: int): seq<int> {
    if s == [] then []
    else if s[0] > cutoff then [s[0]] + Newer(s[1..], cutoff)
    else Newer(s[1..], cutoff)
  }

  predicate Admits(h: seq<int>, now: int, p: Policy) {
    |Newer(h, now - p.window)| < p.max
  }

  /** How long until the oldest counted event leaves the window; 0 when admitted. */
  function Wait(h: seq<int>, now: int, p: Policy): int
    requires 1 <= p.max
  {
    if Admits(h, now, p) then 0 else p.window - (now - Newer(h, now - p.window)[0])
  }

  /** A refused event is not added: a block is never extended. */
  function Record(h: seq<int>, now: int, p: Policy): seq<int> {
    if Admits(h, now, p) then h + [now] else h
  }

  // ------------------------------------------------------------ the counted suffix

  /** In a sorted history the counted entries are a suffix, split exactly at the cutoff. */
  lemma {:induction false} NewerIsSuffix(s: seq<int>, cutoff: int)
    requires Sorted(s)
    ensures var k := |s| - |Newer(s, cutoff)|;
      && 0 <= k && Newer(s, cutoff) == s[k..]
      && (forall i :: 0 <= i < k ==> s[i] <= cutoff)
      && (forall i :: k <= i < |s| ==> s[i] > cutoff)
  {
    if s == [] {
    } else {
      NewerIsSuffix(s[1..], cutoff);
      var n := |Newer(s[1..], cutoff)|;
      if s[0] > cutoff {
        assert n == |s| - 1;
      } else {
        var k := |s| - n;
        assert s[1..][k - 1..] == s[k..];
        forall i | 0 <= i < k ensures s[i] <= cutoff {
          assert i > 0 ==> s[i] == s[1..][i - 1];
        }
        forall i | k <= i < |s| ensures s[i] > cutoff {
          assert s[i] == s[1..][i - 1];
        }
      }
    }
  }

  lemma {:induction false} NewerOfNewer(s: seq<int>, early: int, late: int)
    requires early <= late
    ensures Newer(Newer(s, early), late) == Newer(s, late)
  {
    if s == [] {
    } else {
      NewerOfNewer(s[1..], early, late);
      if s[0] > early {
        assert ([s[0]] + Newer(s[1..], early))[1..] == Newer(s[1..], early);
      }
    }
  }

  lemma {:induction false} NewerAppend(s: seq<int>, x: int, cutoff: int)
    ensures Newer(s + [x], cutoff) == Newer(s, cutoff) + if x > cutoff then [x] else []
  {
    if s == [] {
      assert s + [x] == [x];
    } else {
      NewerAppend(s[1..], x, cutoff);
      assert (s + [x])[1..] == s[1..] + [x];
    }
  }

  /** The positions of the entries less than a window old. */
  ghost function Recent(h: seq<int>, now: int, p: Policy): set<int> {
    set i | 0 <= i < |h| && now - p.window < h[i]
  }

  /** A key is admitted exactly when fewer than max of its events are less than a window old. */
  lemma AdmitsCounts(h: seq<int>, now: int, p: Policy)
    requires Sorted(h)
    ensures Admits(h, now, p) <==> |Recent(h, now, p)| < p.max
  {
    NewerIsSuffix(h, now - p.window);
    var n := |Newer(h, now - p.window)|;
    ExactRange(Recent(h, now, p), |h| - n, n);
  }

  // ----------------------------------------------------------------- window bound

  /** What every history keeps: time order, and events i and i + max at least a window apart. */
  ghost predicate Good(h: seq<int>, now: int, p: Policy) {
    && Sorted(h)
    && (forall i :: 0 <= i < |h| ==> h[i] <= now)
    && (forall i, j :: 0 <= i && j == i + p.max && j < |h| ==> h[j] >= h[i] + p.window)
  }

  lemma RecordKeepsGood(h: seq<int>, then_: int, now: int, p: Policy)
    requires ValidPolicy(p) && Good(h, then_, p) && then_ <= now
    ensures Good(Record(h, now, p), now, p)
  {
    if Admits(h, now, p) {
      NewerIsSuffix(h, now - p.window);
      var h' := h + [now];
      forall i, j | 0 <= i && j == i + p.max && j < |h'| ensures h'[j] >= h'[i] + p.window {
        assert j < |h| ==> h[j] >= h[i] + p.window;
        assert j == |h| ==> i < |h| - |Newer(h, now - p.window)|;
      }
    }
  }

  /** At most max events count at any time. */
  lemma CountedAtMostMax(h: seq<int>, then_: int, now: int, p: Policy)
    requires ValidPolicy(p) && Good(h, then_, p) && then_ <= now
    ensures |Newer(h, now - p.window)| <= p.max
  {
    NewerIsSuffix(h, now - p.window);
    if |h| > p.max {
      var last := |h| - 1;
      assert h[last] >= h[last - p.max] + p.window;
    }
  }

  ghost function Within(h: seq<int>, from: int, p: Policy): set<int> {
    set i | 0 <= i < |h| && from <= h[i] < from + p.window
  }

  /** No half-open interval one window long holds more than max accepted events. */
  lemma AtMostMaxPerWindow(h: seq<int>, now: int, p: Policy, from: int)
    requires ValidPolicy(p) && Good(h, now, p)
    ensures |Within(h, from, p)| <= p.max
  {
    NewerIsSuffix(h, from - 1);
    var k := |h| - |Newer(h, from - 1)|;
    var j := k + p.max;
    assert j < |h| ==> h[j] >= h[k] + p.window;
    forall i | i in Within(h, from, p) ensures k <= i < j {
    }
    AtMostInRange(Within(h, from, p), |h| - |Newer(h, from - 1)|, p.max);
  }

  // ------------------------------------------------------------- exact retry time

  lemma {:induction false} AllNewer(s: seq<int>, cutoff: int)
    requires forall i :: 0 <= i < |s| ==> s[i] > cutoff
    ensures Newer(s, cutoff) == s
  {
    if s == [] {
    } else {
      AllNewer(s[1..], cutoff);
    }
  }

  lemma WaitIsOldest(h: seq<int>, now: int, p: Policy)
    requires ValidPolicy(p) && Good(h, now, p) && !Admits(h, now, p)
    ensures var counted := Newer(h, now - p.window);
      && |counted| == p.max
      && Sorted(counted)
      && now - p.window < counted[0] <= now
      && now + Wait(h, now, p) == counted[0] + p.window
  {
    CountedAtMostMax(h, now, now, p);
    NewerIsSuffix(h, now - p.window);
  }

  /** With no further event accepted, the key stays refused until exactly now + r. */
  lemma RefusedUntil(h: seq<int>, now: int, p: Policy, t: int)
    requires ValidPolicy(p) && Good(h, now, p) && !Admits(h, now, p) && now <= t
    ensures 0 < Wait(h, now, p) <= p.window
    ensures Admits(h, t, p) <==> t >= now + Wait(h, now, p)
  {
    WaitIsOldest(h, now, p);
    var counted := Newer(h, now - p.window);
    assert Newer(h, t - p.window) == Newer(counted, t - p.window) by {
      NewerOfNewer(h, now - p.window, t - p.window);
    }
    if t < counted[0] + p.window {
      AllNewer(counted, t - p.window);
    } else {
      NewerIsSuffix(counted, t - p.window);
    }
  }

  // ------------------------------------------------------ traffic on many keys

  datatype Op = Check(key: string) | Record_(key: string) | Reset(key: string)
  datatype TimedOp = At(now: int, op: Op)

  type Histories = map<string, seq<int>>

  function Of(hs: Histories, key: string): seq<int> {
    if key in hs then hs[key] else []
  }

  function Apply(hs: Histories, o: TimedOp, p: Policy): Histories {
    match o.op
    case Check(_) => hs
    case Record_(key) => hs[key := Record(Of(hs, key), o.now, p)]
    case Reset(key) => hs - {key}
  }

  function Replay(hs: Histories, ops: seq<TimedOp>, p: Policy): Histories
    decreases |ops|
  {
    if ops == [] then hs else Replay(Apply(hs, ops[0], p), ops[1..], p)
  }

  ghost predicate Monotone(now: int, ops: seq<TimedOp>)
    decreases |ops|
  {
    ops == [] || (now <= ops[0].now && Monotone(ops[0].now, ops[1..]))
  }

  function LastTime(now: int, ops: seq<TimedOp>): int
    decreases |ops|
  {
    if ops == [] then now else LastTime(ops[0].now, ops[1..])
  }

  ghost predicate AllGood(hs: Histories, now: int, p: Policy) {
    forall key :: Good(Of(hs, key), now, p)
  }

  lemma {:induction false} ReplayKeepsGood(hs: Histories, now: int, ops: seq<TimedOp>, p: Policy)
    requires ValidPolicy(p) && AllGood(hs, now, p) && Monotone(now, ops)
    ensures AllGood(Replay(hs, ops, p), LastTime(now, ops), p)
    ensures now <= LastTime(now, ops)
    decreases |ops|
  {
    if ops == [] {
    } else {
      var hs' := Apply(hs, ops[0], p);
      if ops[0].op.Record_? {
        RecordKeepsGood(Of(hs, ops[0].op.key), now, ops[0].now, p);
      }
      forall key ensures Good(Of(hs', key), ops[0].now, p) {
        assert Good(Of(hs, key), now, p);
      }
      ReplayKeepsGood(hs', ops[0].now, ops[1..], p);
    }
  }

  lemma {:induction false} ReplayAppend(hs: Histories, now: int, ops: seq<TimedOp>, o: TimedOp, p: Policy)
    requires Monotone(now, ops) && LastTime(now, ops) <= o.now
    ensures Replay(hs, ops + [o], p) == Apply(Replay(hs, ops, p), o, p)
    ensures Monotone(now, ops + [o]) && LastTime(now, ops + [o]) == o.now
    decreases |ops|
  {
    if ops == [] {
      assert [] + [o] == [o];
    } else {
      assert (ops + [o])[1..] == ops[1..] + [o];
      ReplayAppend(Apply(hs, ops[0], p), ops[0].now, ops[1..], o, p);
    }
  }

  /** The histories are what some run of operations, begun with none, has left by `now`. */
  ghost predicate LeftByARun(hs: Histories, now: int, p: Policy) {
    exists start, ops ::
      Monotone(start, ops) && LastTime(start, ops) <= now && hs == Replay(map[], ops, p)
  }

  lemma RunGoesOn(hs: Histories, now: int, o: TimedOp, p: Policy)
    requires LeftByARun(hs, now, p) && now <= o.now
    ensures LeftByARun(Apply(hs, o, p), o.now, p)
  {
    var start, ops :| Monotone(start, ops) && LastTime(start, ops) <= now && hs == Replay(map[], ops, p);
    ReplayAppend(map[], start, ops, o, p);
  }

  lemma RunsAreGood(hs: Histories, now: int, key: string, p: Policy)
    requires ValidPolicy(p) && LeftByARun(hs, now, p)
    ensures Good(Of(hs, key), now, p)
  {
    var start, ops :| Monotone(start, ops) && LastTime(start, ops) <= now && hs == Replay(map[], ops, p);
    assert AllGood(map[], start, p);
    ReplayKeepsGood(map[], start, ops, p);
    assert Good(Of(hs, key), LastTime(start, ops), p);
  }

  ghost predicate Untouched(ops: seq<TimedOp>, key: string, until: int) {
    forall i :: 0 <= i < |ops| ==>
      && ops[i].op != Reset(key)
      && (ops[i].op == Record_(key) ==> ops[i].now < until)
  }

  /** While refused, a key's history does not move. */
  lemma {:induction false} KeyFrozen(hs: Histories, now: int, ops: seq<TimedOp>, key: string, until: int, p: Policy)
    requires ValidPolicy(p) && Monotone(now, ops) && Untouched(ops, key, until)
    requires forall t | now <= t < until :: !Admits(Of(hs, key), t, p)
    ensures Of(Replay(hs, ops, p), key) == Of(hs, key)
    decreases |ops|
  {
    if ops == [] {
    } else {
      assert ops[0].op == Record_(key) ==> !Admits(Of(hs, key), ops[0].now, p);
      assert Of(Apply(hs, ops[0], p), key) == Of(hs, key);
      KeyFrozen(Apply(hs, ops[0], p), ops[0].now, ops[1..], key, until, p);
    }
  }

  /** Exact retry time over any traffic: after a refusal with wait r at `now`, whatever is
      checked or recorded under any key, and with this key not reset, it stays refused
      until exactly now + r, and is admitted from then until it is next recorded. */
  lemma {:induction false} RetryTimeIsExact(hs: Histories, now: int, ops: seq<TimedOp>, key: string, t: int, p: Policy)
    requires ValidPolicy(p) && AllGood(hs, now, p) && Monotone(now, ops) && LastTime(now, ops) <= t
    requires !Admits(Of(hs, key), now, p)
    requires Untouched(ops, key, now + Wait(Of(hs, key), now, p))
    ensures Admits(Of(Replay(hs, ops, p), key), t, p) <==> t >= now + Wait(Of(hs, key), now, p)
  {
    var until := now + Wait(Of(hs, key), now, p);
    assert Good(Of(hs, key), now, p);
    forall u | now <= u < until ensures !Admits(Of(hs, key), u, p) {
      RefusedUntil(Of(hs, key), now, p, u);
    }
    KeyFrozen(hs, now, ops, key, until, p);
    ReplayKeepsGood(hs, now, ops, p);
    RefusedUntil(Of(hs, key), now, p, t);
  }
}
