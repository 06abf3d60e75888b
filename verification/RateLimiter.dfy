/** internal/ratelimit/limiter.go: a map of timestamp slices, pruned lazily and swept at
    most once per window, proved to answer as the never-forgetting specification does. The
    mutex makes each method one atomic step; `now` is the clock read under it. */
module RateLimiter {
  import opened Wrappers
  import opened Cardinality
  import opened SlidingWindow

  const SWEEP_THRESHOLD: nat := 1024

  // ------------------------------------------------------ the map, as a value

  function Put(f: Histories, key: string, times: seq<int>): Histories {
    if times == [] then f - {key} else f[key := times]
  }

  ghost function Swept(f: Histories, cutoff: int): Histories {
    map k | k in f && Newer(f[k], cutoff) != [] :: Newer(f[k], cutoff)
  }

  /** No empty slice, none longer than max, and after a sweep at `s` none without an entry
      newer than s - window. */
  ghost predicate Slice(times: seq<int>, lastSweep: Option<int>, p: Policy) {
    && times != [] && |times| <= p.max && Sorted(times)
    && (lastSweep.Some? ==> times[|times| - 1] > lastSweep.value - p.window)
  }

  ghost predicate Slices(f: Histories, lastSweep: Option<int>, p: Policy) {
    forall k | k in f :: Slice(f[k], lastSweep, p)
  }

  /** The two lists have the same entries newer than `from`. */
  ghost predicate Alike(a: seq<int>, b: seq<int>, from: int) {
    Newer(a, from) == Newer(b, from)
  }

  /** Whatever the map has dropped is not counted now, nor ever again. */
  ghost predicate Agrees(f: Histories, history: Histories, from: int) {
    forall k :: Alike(Of(f, k), Of(history, k), from)
  }

  lemma AlikeLater(a: seq<int>, b: seq<int>, from: int, cutoff: int)
    requires Alike(a, b, from) && from <= cutoff
    ensures Alike(a, b, cutoff) && Alike(Newer(a, cutoff), b, cutoff)
  {
    NewerOfNewer(a, from, cutoff);
    NewerOfNewer(b, from, cutoff);
    NewerOfNewer(a, cutoff, cutoff);
  }

  lemma AlikeAppend(a: seq<int>, b: seq<int>, x: int, from: int)
    requires Alike(a, b, from)
    ensures Alike(a + [x], b + [x], from)
  {
    NewerAppend(a, x, from);
    NewerAppend(b, x, from);
  }

  lemma AgreesLater(f: Histories, history: Histories, from: int, cutoff: int)
    requires Agrees(f, history, from) && from <= cutoff
    ensures Agrees(f, history, cutoff)
  {
    forall k ensures Alike(Of(f, k), Of(history, k), cutoff) {
      assert Alike(Of(f, k), Of(history, k), from);
      AlikeLater(Of(f, k), Of(history, k), from, cutoff);
    }
  }

  lemma SliceNewer(times: seq<int>, lastSweep: Option<int>, cutoff: int, p: Policy)
    requires Slice(times, lastSweep, p) && Newer(times, cutoff) != []
    ensures Slice(Newer(times, cutoff), lastSweep, p)
    ensures Slice(Newer(times, cutoff), Some(cutoff + p.window), p)
  {
    NewerIsSuffix(times, cutoff);
  }

  lemma PutSlices(f: Histories, key: string, cutoff: int, lastSweep: Option<int>, p: Policy)
    requires Slices(f, lastSweep, p)
    ensures Slices(Put(f, key, Newer(Of(f, key), cutoff)), lastSweep, p)
    ensures |Newer(Of(f, key), cutoff)| <= p.max
  {
    if key in f {
      assert Slice(f[key], lastSweep, p);
      NewerIsSuffix(f[key], cutoff);
      if Newer(f[key], cutoff) != [] {
        SliceNewer(f[key], lastSweep, cutoff, p);
      }
    }
  }

  lemma PutAgrees(f: Histories, history: Histories, key: string, from: int, cutoff: int)
    requires Agrees(f, history, from) && from <= cutoff
    ensures Agrees(Put(f, key, Newer(Of(f, key), cutoff)), history, cutoff)
    ensures Newer(Of(f, key), cutoff) == Newer(Of(history, key), cutoff)
  {
    var f' := Put(f, key, Newer(Of(f, key), cutoff));
    assert Alike(Of(f, key), Of(history, key), from);
    AlikeLater(Of(f, key), Of(history, key), from, cutoff);
    forall k ensures Alike(Of(f', k), Of(history, k), cutoff) {
      assert Alike(Of(f, k), Of(history, k), from);
      AlikeLater(Of(f, k), Of(history, k), from, cutoff);
      assert Of(f', k) == if k == key then Newer(Of(f, key), cutoff) else Of(f, k);
    }
  }

  lemma SweepKeeps(f: Histories, history: Histories, from: int, now: int, lastSweep: Option<int>, p: Policy)
    requires Slices(f, lastSweep, p) && Agrees(f, history, from) && from <= now - p.window
    ensures Slices(Swept(f, now - p.window), Some(now), p)
    ensures Agrees(Swept(f, now - p.window), history, now - p.window)
  {
    var cutoff := now - p.window;
    forall k | k in Swept(f, cutoff) ensures Slice(Swept(f, cutoff)[k], Some(now), p) {
      SliceNewer(f[k], lastSweep, cutoff, p);
    }
    forall k ensures Alike(Of(Swept(f, cutoff), k), Of(history, k), cutoff) {
      assert Alike(Of(f, k), Of(history, k), from);
      AlikeLater(Of(f, k), Of(history, k), from, cutoff);
    }
  }

  lemma AppendSlice(times: seq<int>, now: int, lastSweep: Option<int>, p: Policy)
    requires ValidPolicy(p) && |times| < p.max && Sorted(times)
    requires forall i :: 0 <= i < |times| ==> times[i] <= now
    requires lastSweep.Some? ==> lastSweep.value <= now
    ensures Slice(times + [now], lastSweep, p)
  {
  }

  lemma AppendAgrees(f: Histories, history: Histories, key: string, now: int, from: int)
    requires Agrees(f, history, from)
    ensures Agrees(f[key := Of(f, key) + [now]], history[key := Of(history, key) + [now]], from)
  {
    var f', history' := f[key := Of(f, key) + [now]], history[key := Of(history, key) + [now]];
    forall k ensures Alike(Of(f', k), Of(history', k), from) {
      assert Alike(Of(f, k), Of(history, k), from);
      if k == key {
        AlikeAppend(Of(f, key), Of(history, key), now, from);
      }
    }
  }

  lemma NewerKeepsOrder(h: seq<int>, now: int, cutoff: int, p: Policy)
    requires Good(h, now, p)
    ensures var times := Newer(h, cutoff);
      Sorted(times) && forall i :: 0 <= i < |times| ==> times[i] <= now
  {
    NewerIsSuffix(h, cutoff);
  }

  ghost predicate Kept(f: Histories, history: Histories, now: int, lastSweep: Option<int>, p: Policy) {
    LeftByARun(history, now, p) && Slices(f, lastSweep, p) && Agrees(f, history, now - p.window)
  }

  lemma RecordSlices(f: Histories, history: Histories, key: string, now: int, lastSweep: Option<int>, p: Policy)
    requires ValidPolicy(p) && Slices(f, lastSweep, p) && |Of(f, key)| < p.max
    requires LeftByARun(history, now, p) && (lastSweep.Some? ==> lastSweep.value <= now)
    requires Of(f, key) == Newer(Of(history, key), now - p.window)
    ensures Slices(f[key := Of(f, key) + [now]], lastSweep, p)
  {
    RunsAreGood(history, now, key, p);
    NewerKeepsOrder(Of(history, key), now, now - p.window, p);
    AppendSlice(Of(f, key), now, lastSweep, p);
  }

  /** Recording in the map and in the history side by side. */
  lemma RecordKeeps(f: Histories, f': Histories, history: Histories, history': Histories,
                    key: string, now: int, lastSweep: Option<int>, p: Policy)
    requires ValidPolicy(p) && Kept(f, history, now, lastSweep, p)
    requires lastSweep.Some? ==> lastSweep.value <= now
    requires Of(f, key) == Newer(Of(history, key), now - p.window)
    requires |Of(f, key)| < p.max && f' == f[key := Of(f, key) + [now]]
    requires history' == history[key := Of(history, key) + [now]]
    ensures Kept(f', history', now, lastSweep, p)
    ensures history' == Apply(history, At(now, Record_(key)), p)
  {
    assert Admits(Of(history, key), now, p);
    RunGoesOn(history, now, At(now, Record_(key)), p);
    RecordSlices(f, history, key, now, lastSweep, p);
    AppendAgrees(f, history, key, now, now - p.window);
  }

  lemma RefusalKeeps(f: Histories, history: Histories, history': Histories,
                     key: string, now: int, lastSweep: Option<int>, p: Policy)
    requires ValidPolicy(p) && Kept(f, history, now, lastSweep, p)
    requires !Admits(Of(history, key), now, p) && history' == Apply(history, At(now, Record_(key)), p)
    ensures Kept(f, history', now, lastSweep, p)
  {
    assert forall k :: Of(history', k) == Of(history, k);
    RunGoesOn(history, now, At(now, Record_(key)), p);
    forall k ensures Alike(Of(f, k), Of(history', k), now - p.window) {
      assert Alike(Of(f, k), Of(history, k), now - p.window);
    }
  }

  /** Few keys, or none whose newest entry is two windows old. */
  ghost predicate Bounded(f: Histories, now: int, p: Policy) {
    || |f| <= SWEEP_THRESHOLD
    || forall k | k in f :: f[k] != [] && f[k][|f[k]| - 1] > now - 2 * p.window
  }

  ghost predicate FewOrSwept(others: set<string>, lastSweep: Option<int>, now: int, p: Policy) {
    |others| < SWEEP_THRESHOLD || (lastSweep.Some? && now - lastSweep.value < p.window)
  }

  lemma BoundedAfter(f: Histories, key: string, lastSweep: Option<int>, now: int, p: Policy)
    requires Slices(f, lastSweep, p) && FewOrSwept(f.Keys - {key}, lastSweep, now, p)
    ensures Bounded(f, now, p)
  {
    assert |f.Keys| <= |f.Keys - {key}| + 1;
    assert |f| == |f.Keys|;
    assert forall k | k in f :: Slice(f[k], lastSweep, p);
  }

  class Limiter {
    const policy: Policy
    var failures: Histories
    // None is Go's zero time, further in the past than any window
    var lastSweep: Option<int>

    // every event accepted since its key was last reset, and the last clock reading
    ghost var history: Histories
    ghost var clock: int

    ghost predicate Valid()
      reads this
    {
      && ValidPolicy(policy)
      && Kept(failures, history, clock, lastSweep, policy)
      && (lastSweep.Some? ==> lastSweep.value <= clock)
    }

    constructor (max: nat, window: int, ghost start: int)
      requires 1 <= max && 0 < window
      ensures Valid() && policy == Policy(max, window)
      ensures history == map[] && clock == start && failures == map[] && lastSweep == None
    {
      policy := Policy(max, window);
      failures := map[];
      lastSweep := None;
      history := map[];
      clock := start;
      new;
      assert Monotone(start, []) && LastTime(start, []) <= clock && history == Replay(map[], [], policy);
    }

    static method Prune(times: seq<int>, cutoff: int) returns (kept: seq<int>)
      requires Sorted(times)
      ensures kept == Newer(times, cutoff)
    {
      NewerIsSuffix(times, cutoff);
      ghost var k := |times| - |Newer(times, cutoff)|;
      for i := 0 to |times|
        invariant i <= k
      {
        if times[i] > cutoff {
          return times[i..];
        }
      }
      return [];
    }

    method PruneKey(key: string, now: int) returns (times: seq<int>)
      requires Valid() && clock <= now
      modifies this
      ensures Valid() && clock == now && history == old(history) && lastSweep == old(lastSweep)
      ensures times == Newer(Of(history, key), now - policy.window) && |times| <= policy.max
      ensures failures == Put(old(failures), key, times)
    {
      var cutoff := now - policy.window;
      PutSlices(failures, key, cutoff, lastSweep, policy);
      PutAgrees(failures, history, key, clock - policy.window, cutoff);
      RunGoesOn(history, clock, At(now, SlidingWindow.Check(key)), policy);
      clock := now;
      if key !in failures {
        return [];
      }
      var kept := Prune(failures[key], cutoff);
      if |kept| == 0 {
        failures := failures - {key};
      } else {
        failures := failures[key := kept];
      }
      return kept;
    }

    method Check(key: string, now: int) returns (ok: bool, retryAfter: int)
      requires Valid() && clock <= now
      modifies this
      ensures Valid() && clock == now && history == old(history) && lastSweep == old(lastSweep)
      ensures ok == Admits(Of(history, key), now, policy)
      ensures retryAfter == Wait(Of(history, key), now, policy)
    {
      var times := PruneKey(key, now);
      if |times| < policy.max {
        return true, 0;
      }
      return false, policy.window - (now - times[0]);
    }

    method MaybeSweep(now: int)
      requires Valid() && clock <= now
      modifies this
      ensures Valid() && clock == now && history == old(history)
      ensures if |old(failures)| < SWEEP_THRESHOLD
                 || (old(lastSweep).Some? && now - old(lastSweep).value < policy.window)
              then lastSweep == old(lastSweep) && failures == old(failures)
              else lastSweep == Some(now) && failures == Swept(old(failures), now - policy.window)
    {
      RunGoesOn(history, clock, At(now, SlidingWindow.Check("")), policy);
      AgreesLater(failures, history, clock - policy.window, now - policy.window);
      clock := now;
      if |failures| < SWEEP_THRESHOLD || (lastSweep.Some? && now - lastSweep.value < policy.window) {
        return;
      }
      SweepKeeps(failures, history, now - policy.window, now, lastSweep, policy);
      lastSweep := Some(now);
      SweepLoop(now - policy.window);
    }

    /** The range loop of maybeSweep, in whatever order the map yields its keys. */
    method SweepLoop(cutoff: int)
      requires forall k | k in failures :: Sorted(failures[k])
      modifies this`failures
      ensures failures == Swept(old(failures), cutoff)
    {
      ghost var before := failures;
      var todo := failures.Keys;
      while todo != {}
        invariant todo <= failures.Keys <= before.Keys
        invariant forall k | k in todo :: failures[k] == before[k]
        invariant forall k | k in before && k !in todo ::
          if Newer(before[k], cutoff) == [] then k !in failures
          else k in failures && failures[k] == Newer(before[k], cutoff)
        decreases todo
      {
        var key :| key in todo;
        var kept := Prune(failures[key], cutoff);
        if |kept| == 0 {
          failures := failures - {key};
        } else {
          failures := failures[key := kept];
        }
        todo := todo - {key};
      }
    }

    /** Also RecordFailure, which is the same method under another name. */
    method Record(key: string, now: int)
      requires Valid() && clock <= now
      modifies this
      ensures Valid() && clock == now
      ensures history == Apply(old(history), At(now, Record_(key)), policy)
      ensures |failures| <= 1024
        || forall k | k in failures :: failures[k] != [] && failures[k][|failures[k]| - 1] > now - 2 * policy.window
      ensures lastSweep == old(lastSweep)
        || (lastSweep == Some(now) && (old(lastSweep).Some? ==> now - old(lastSweep).value >= policy.window))
    {
      var times := Tidy(key, now);
      if |times| >= policy.max {
        NoteRefusal(key, now);
      } else {
        Append(key, times, now);
      }
      BoundedAfter(failures, key, lastSweep, now, policy);
    }

    /** The first half of Record: the sweep, if one is due, and the pruning of the key. */
    method Tidy(key: string, now: int) returns (times: seq<int>)
      requires Valid() && clock <= now
      modifies this
      ensures Valid() && clock == now && history == old(history)
      ensures times == Newer(Of(history, key), now - policy.window) && |times| <= policy.max
      ensures times == Of(failures, key)
      ensures FewOrSwept(failures.Keys - {key}, lastSweep, now, policy)
      ensures lastSweep == old(lastSweep)
        || (lastSweep == Some(now) && (old(lastSweep).Some? ==> now - old(lastSweep).value >= policy.window))
    {
      MaybeSweep(now);
      ghost var swept := failures;
      times := PruneKey(key, now);
      assert failures.Keys - {key} == swept.Keys - {key};
      SubsetSize(swept.Keys - {key}, swept.Keys);
    }

    ghost method NoteRefusal(key: string, now: int)
      requires Valid() && clock == now && !Admits(Of(history, key), now, policy)
      modifies this`history
      ensures Valid() && history == Apply(old(history), At(now, Record_(key)), policy)
    {
      history := Apply(history, At(now, Record_(key)), policy);
      RefusalKeeps(failures, old(history), history, key, now, lastSweep, policy);
    }

    method Append(key: string, times: seq<int>, now: int)
      requires Valid() && clock == now && |times| < policy.max
      requires times == Of(failures, key) == Newer(Of(history, key), now - policy.window)
      modifies this`failures, this`history
      ensures Valid() && failures == old(failures)[key := times + [now]]
      ensures failures.Keys - {key} == old(failures).Keys - {key}
      ensures history == Apply(old(history), At(now, Record_(key)), policy)
    {
      failures := failures[key := times + [now]];
      history := history[key := Of(history, key) + [now]];
      RecordKeeps(old(failures), failures, old(history), history, key, now, lastSweep, policy);
    }

    method Reset(key: string)
      requires Valid()
      modifies this
      ensures Valid() && clock == old(clock) && lastSweep == old(lastSweep)
      ensures history == Apply(old(history), At(clock, SlidingWindow.Reset(key)), policy)
    {
      RunGoesOn(history, clock, At(clock, SlidingWindow.Reset(key)), policy);
      failures := failures - {key};
      history := history - {key};
      forall k ensures Alike(Of(failures, k), Of(history, k), clock - policy.window) {
        assert Alike(Of(old(failures), k), Of(old(history), k), clock - policy.window);
      }
    }
  }
}
