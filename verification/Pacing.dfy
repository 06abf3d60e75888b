/** internal/igdb/throttle.go: slots claimed under a mutex, and the schedule they form. */
module Pacing {
  import opened Wrappers
  import opened Cardinality

  /** How a call ended: with its slot, or because its context was done. */
  datatype Outcome = Proceeded | Cancelled

  /** The slot of a caller arriving at `now` when the next free one is `next`; Go's zero
      time, None here, lies before every arrival. */
  function SlotAt(next: Option<int>, now: int): int {
    if next.Some? && now <= next.value then next.value else now
  }

  // ----------------------------------------------------------------- the schedule

  /** The slots claimed by callers arriving in this order at an idle throttle. */
  function Slots(arrivals: seq<int>, interval: int): (slots: seq<int>)
    ensures |slots| == |arrivals|
  {
    if arrivals == [] then []
    else
      var before := Slots(arrivals[..|arrivals| - 1], interval);
      before + [SlotAt(if before == [] then None else Some(before[|before| - 1] + interval),
                       arrivals[|arrivals| - 1])]
  }

  lemma {:induction false} SlotsPrefix(arrivals: seq<int>, interval: int, k: nat)
    requires k <= |arrivals|
    ensures Slots(arrivals[..k], interval) == Slots(arrivals, interval)[..k]
    decreases |arrivals|
  {
    if k == |arrivals| {
      assert arrivals[..k] == arrivals;
    } else {
      var init := arrivals[..|arrivals| - 1];
      SlotsPrefix(init, interval, k);
      assert init[..k] == arrivals[..k];
    }
  }

  class Throttle {
    const interval: int
    var next: Option<int>

    // when each caller so far arrived at the lock
    ghost var arrivals: seq<int>

    ghost predicate Valid()
      reads this
    {
      var slots := Slots(arrivals, interval);
      next == if slots == [] then None else Some(slots[|slots| - 1] + interval)
    }

    constructor (perSecond: int)
      requires 1 <= perSecond
      ensures Valid() && interval == 1_000_000_000 / perSecond && arrivals == []
    {
      interval := SECOND / perSecond;
      next := None;
      arrivals := [];
    }

    /** The slot is claimed before, and whether or not, the caller gives up. `doneNow` is
        the context being done already, `doneLater` its ending during the sleep. */
    method Wait(now: int, doneNow: bool, doneLater: bool) returns (delay: int, outcome: Outcome)
      requires Valid()
      modifies this
      ensures Valid() && arrivals == old(arrivals) + [now]
      ensures 0 <= delay && now + delay == Slots(arrivals, interval)[|arrivals| - 1]
      ensures outcome == if (delay <= 0 && doneNow) || (0 < delay && doneLater) then Cancelled else Proceeded
    {
      var slot := now;
      if next.Some? && !(next.value < now) {
        slot := next.value;
      }
      next := Some(slot + interval);
      assert (arrivals + [now])[..|arrivals|] == arrivals;
      arrivals := arrivals + [now];
      delay := slot - now;
      if delay <= 0 {
        return delay, if doneNow then Cancelled else Proceeded;
      }
      return delay, if doneLater then Cancelled else Proceeded;
    }
  }

  /** First come first served: no slot before its arrival, and consecutive ones at least
      an interval apart. */
  ghost predicate Schedule(slots: seq<int>, arrivals: seq<int>, interval: int) {
    && |slots| == |arrivals|
    && (forall k :: 0 <= k < |slots| ==> slots[k] >= arrivals[k])
    && (forall j, k :: 0 <= j && k == j + 1 && k < |slots| ==> slots[k] >= slots[j] + interval)
  }

  /** max over i <= k of arrivals[i] + (k - i) * interval. */
  ghost predicate IsMaxPlus(slot: int, arrivals: seq<int>, interval: int, k: nat)
    requires k < |arrivals|
  {
    && (forall i :: 0 <= i <= k ==> arrivals[i] + (k - i) * interval <= slot)
    && (exists i :: 0 <= i <= k && slot == arrivals[i] + (k - i) * interval)
  }

  lemma OneMore(n: int, interval: int)
    ensures (n + 1) * interval == n * interval + interval
  {
  }

  /** Every claimed slot is the max-plus closed form of the arrivals so far. */
  lemma {:induction false} SlotIsMaxPlus(arrivals: seq<int>, interval: int, k: nat)
    requires k < |arrivals|
    ensures IsMaxPlus(Slots(arrivals, interval)[k], arrivals, interval, k)
    decreases k
  {
    SlotsPrefix(arrivals, interval, k + 1);
    var upTo := arrivals[..k + 1];
    assert upTo[..k] == arrivals[..k];
    var slot := Slots(arrivals, interval)[k];
    assert slot == Slots(upTo, interval)[k];
    if k == 0 {
      assert slot == arrivals[0] + (k - 0) * interval;
    } else {
      SlotIsMaxPlus(arrivals, interval, k - 1);
      SlotsPrefix(arrivals, interval, k);
      var prior := Slots(arrivals, interval)[k - 1];
      assert slot == SlotAt(Some(prior + interval), arrivals[k]);
      forall i | 0 <= i <= k ensures arrivals[i] + (k - i) * interval <= slot {
        if i < k {
          assert arrivals[i] + (k - 1 - i) * interval <= prior;
          OneMore(k - 1 - i, interval);
        }
      }
      if slot == arrivals[k] {
        assert slot == arrivals[k] + (k - k) * interval;
      } else {
        var i :| 0 <= i <= k - 1 && prior == arrivals[i] + (k - 1 - i) * interval;
        OneMore(k - 1 - i, interval);
        assert slot == arrivals[i] + (k - i) * interval;
      }
    }
  }

  /** In a schedule, slots n places apart are n intervals apart. */
  lemma {:induction false} Spread(slots: seq<int>, arrivals: seq<int>, interval: int, i: nat, k: nat)
    requires Schedule(slots, arrivals, interval) && i <= k < |slots|
    ensures slots[k] >= slots[i] + (k - i) * interval
    decreases k
  {
    if i < k {
      Spread(slots, arrivals, interval, i, k - 1);
      OneMore(k - 1 - i, interval);
    }
  }

  lemma {:induction false} SlotsAreASchedule(arrivals: seq<int>, interval: int)
    ensures Schedule(Slots(arrivals, interval), arrivals, interval)
  {
    if arrivals == [] {
    } else {
      SlotsAreASchedule(arrivals[..|arrivals| - 1], interval);
    }
  }

  /** The throttle's schedule is the earliest there is, caller by caller. */
  lemma SlotsAreOptimal(arrivals: seq<int>, interval: int, slots: seq<int>)
    requires Schedule(slots, arrivals, interval)
    ensures Schedule(Slots(arrivals, interval), arrivals, interval)
    ensures forall k :: 0 <= k < |slots| ==> Slots(arrivals, interval)[k] <= slots[k]
  {
    SlotsAreASchedule(arrivals, interval);
    forall k | 0 <= k < |slots| ensures Slots(arrivals, interval)[k] <= slots[k] {
      SlotIsMaxPlus(arrivals, interval, k);
      var i :| 0 <= i <= k && Slots(arrivals, interval)[k] == arrivals[i] + (k - i) * interval;
      Spread(slots, arrivals, interval, i, k);
    }
  }

  // ------------------------------------------------------------------- the rate limit

  ghost function During(slots: seq<int>, from: int): set<int> {
    set k | 0 <= k < |slots| && from <= slots[k] < from + SECOND
  }

  /** No half-open second, wherever it starts, holds more than this many slots. */
  ghost predicate RateHolds(perSecond: int)
    requires 1 <= perSecond
  {
    forall arrivals: seq<int>, from: int ::
      |During(Slots(arrivals, SECOND / perSecond), from)| <= perSecond
  }

  lemma Scaled(m: int, n: int, interval: int)
    requires 0 <= interval && m <= n
    ensures m * interval <= n * interval
  {
  }

  lemma {:induction false} Least(s: set<int>, x: int) returns (least: int)
    requires x in s
    ensures least in s && forall i | i in s :: least <= i
  {
    least := x;
    if y :| y in s && y < x {
      var rest := s - {x};
      least := Least(rest, y);
      forall i | i in s ensures least <= i {
        assert i == x || i in rest;
        assert y in rest;
      }
    }
  }

  lemma AtMostPerSecond(arrivals: seq<int>, interval: int, n: nat, from: int)
    requires 0 <= interval && n * interval == SECOND
    ensures |During(Slots(arrivals, interval), from)| <= n
  {
    var slots := Slots(arrivals, interval);
    var held := During(slots, from);
    SlotsAreASchedule(arrivals, interval);
    if first :| first in held {
      var lo := Least(held, first);
      forall k | k in held ensures lo <= k < lo + n {
        Spread(slots, arrivals, interval, lo, k);
        if lo + n <= k {
          Scaled(n, k - lo, interval);
        }
      }
      AtMostInRange(held, lo, n);
    } else {
      assert held == {};
    }
  }

  lemma {:induction false} BurstSlots(n: nat, interval: int)
    requires 0 <= interval
    ensures forall k :: 0 <= k < n ==> Slots(seq(n, _ => 0), interval)[k] == k * interval
  {
    if n == 0 {
    } else {
      var arrivals := seq(n, _ => 0);
      assert arrivals[..n - 1] == seq(n - 1, _ => 0);
      BurstSlots(n - 1, interval);
      if n > 1 {
        OneMore(n - 2, interval);
      }
    }
  }

  /** The division in newThrottle truncates. The limit it is written for holds for every
      arrival sequence, cancelled callers included, exactly when the division is exact;
      otherwise a burst puts one slot too many into its first second. */
  lemma RateHoldsIffExact(perSecond: int)
    requires 1 <= perSecond
    ensures RateHolds(perSecond) <==> SECOND % perSecond == 0
  {
    if SECOND % perSecond == 0 {
      forall arrivals: seq<int>, from: int
        ensures |During(Slots(arrivals, SECOND / perSecond), from)| <= perSecond
      {
        AtMostPerSecond(arrivals, SECOND / perSecond, perSecond, from);
      }
    } else {
      var interval, n := SECOND / perSecond, perSecond + 1;
      var slots := Slots(seq(n, _ => 0), interval);
      BurstSlots(n, interval);
      assert perSecond * interval < SECOND;
      forall k | 0 <= k < n ensures k in During(slots, 0) {
        assert slots[k] == k * interval;
        Scaled(0, k, interval);
        Scaled(k, perSecond, interval);
      }
      AtLeastRange(During(slots, 0), n);
    }
  }

  /** IGDB's documented limit of 4 per second is kept. */
  lemma FourPerSecond()
    ensures RateHolds(4)
  {
    RateHoldsIffExact(4);
  }
}
