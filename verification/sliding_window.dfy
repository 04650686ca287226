/**
 * The bucketed sliding-window counter of limiter.go.
 *
 * A limiter keeps one counter per bucket, keyed by the bucket's start time
 * (epoch seconds, aligned to the bucket span), and a cached "full until"
 * timestamp. `Evaluate` is the reference definition of one call of
 * `LimitReached` on a snapshot of that state; the class `Limiter` performs
 * the same call in place, the way the Go code does, and is proved equal to it.
 */
module SlidingWindow {
  import opened Uint32

  /** The state of a limiter: the `FullUntil` and `Buckets` fields (limiter.go:12). */
  datatype LimiterValue = LimiterValue(fullUntil: u32, buckets: map<u32, u32>)

  /** The state `NewLimiter` creates. */
  const Fresh: LimiterValue := LimiterValue(0, map[])

  /** The four results of `LimitReached`, in the order the Go function returns them. */
  datatype Decision = Decision(reached: bool, count: u32, changed: bool, expireChanged: bool)

  /** The exact (unbounded) sum of the counts of a bucket map. */
  ghost function Sum(m: map<u32, u32>): nat
    decreases m.Keys
  {
    if m == map[] then 0
    else
      var k :| k in m;
      m[k] + Sum(m - {k})
  }

  lemma {:induction false} SumRemove(m: map<u32, u32>, k: u32)
    requires k in m
    ensures Sum(m) == m[k] + Sum(m - {k})
    decreases m.Keys
  {
    var j :| j in m && Sum(m) == m[j] + Sum(m - {j});
    if j != k {
      SumRemove(m - {j}, k);
      SumRemove(m - {k}, j);
      assert m - {j} - {k} == m - {k} - {j};
    }
  }

  lemma SumInsert(m: map<u32, u32>, k: u32, c: u32)
    requires k !in m
    ensures Sum(m[k := c]) == Sum(m) + c
  {
    SumRemove(m[k := c], k);
    assert m[k := c] - {k} == m;
  }

  /** No single bucket holds more than the whole map. */
  lemma CountAtMostSum(m: map<u32, u32>, k: u32)
    requires k in m
    ensures m[k] <= Sum(m)
  {
    SumRemove(m, k);
  }

  /** The buckets that are still inside the window: keys strictly after `boundary`. */
  function Pruned(m: map<u32, u32>, boundary: u32): map<u32, u32>
  {
    map t | t in m && t > boundary :: m[t]
  }

  /** Scanning one more key of `m` adds it to the surviving buckets if it is inside the window. */
  lemma PrunedStep(m: map<u32, u32>, pending: set<u32>, t: u32, boundary: u32)
    requires t in pending && pending <= m.Keys
    ensures t !in Pruned(m - pending, boundary)
    ensures t > boundary ==> Pruned(m - (pending - {t}), boundary) == Pruned(m - pending, boundary)[t := m[t]]
    ensures t <= boundary ==> Pruned(m - (pending - {t}), boundary) == Pruned(m - pending, boundary)
  {
    if t > boundary {
      assert Pruned(m - (pending - {t}), boundary) == Pruned(m - pending, boundary)[t := m[t]];
    } else {
      assert Pruned(m - (pending - {t}), boundary) == Pruned(m - pending, boundary);
    }
  }

  /** The exact number of events the buckets hold inside the window. */
  ghost function WindowTotal(buckets: map<u32, u32>, boundary: u32): nat
  {
    Sum(Pruned(buckets, boundary))
  }

  /** The smallest timestamp of a non-empty set. */
  ghost function MinKey(s: set<u32>): (r: u32)
    requires s != {}
    ensures r in s
    ensures forall t :: t in s ==> r <= t
    decreases s
  {
    assert exists x :: x in s;
    var x :| x in s;
    if s == {x} then x
    else
      var y := MinKey(s - {x});
      assert forall t :: t in s ==> t == x || t in s - {x};
      if x <= y then x else y
  }

  /**
   * The oldest surviving bucket, as the scan of limiter.go:31-42 finds it;
   * `math.MaxUint32` when no bucket survives.
   */
  ghost function Oldest(live: map<u32, u32>): u32
  {
    if live == map[] then MaxValue else MinKey(live.Keys)
  }

  /** The start of the bucket that holds time `ts` (limiter.go:49). */
  function Normalize(ts: u32, interval: u32): (slot: u32)
    requires interval > 0
    ensures slot <= ts < slot + interval
    ensures slot == (ts / interval) * interval
  {
    ts - ts % interval
  }

  /**
   * One call of `LimitReached` at time `ts` on state `v`: the decision and the
   * new state. `window` and `interval` are in seconds, `upperLimit` is the
   * number of events a window admits.
   */
  ghost function Evaluate(v: LimiterValue, window: u32, upperLimit: u32, interval: u32, ts: u32)
    : (Decision, LimiterValue)
    requires interval > 0
  {
    if upperLimit == 0 then (Decision(true, 0, false, false), v)
    else if ts < v.fullUntil then (Decision(true, upperLimit, false, false), v)
    else
      var boundary := Sub(ts, window);
      var live := Pruned(v.buckets, boundary);
      var total: u32 := Sum(live) % Modulus;
      if total < upperLimit then
        var slot := Normalize(ts, interval);
        var bumped := Add(if slot in live then live[slot] else 0, 1);
        (Decision(false, total + 1, true, true), LimiterValue(0, live[slot := bumped]))
      else
        (Decision(true, upperLimit, true, false), LimiterValue(Add(Oldest(live), window), live))
  }

  /** What every call of `LimitReached` promises, whichever path it takes. */
  lemma DecisionInvariants(v: LimiterValue, window: u32, upperLimit: u32, interval: u32, ts: u32)
    requires interval > 0
    ensures var (d, w) := Evaluate(v, window, upperLimit, interval, ts);
            // the count reported never exceeds the limit
            && d.count <= upperLimit
            // a call that reports no change leaves the state as it was
            && (!d.changed ==> w == v)
            // a call that blocks adds to no bucket and keeps the expiry
            && (d.reached ==> !d.expireChanged)
            && (d.reached ==> forall t :: t in w.buckets ==> t in v.buckets && w.buckets[t] == v.buckets[t])
            // a call that admits changes the state, resets the expiry and clears the cache
            && (!d.reached ==> d.changed && d.expireChanged && 0 < d.count && w.fullUntil == 0)
            // the degenerate limit and the cached fast path touch nothing
            && (upperLimit == 0 ==> d == Decision(true, 0, false, false) && w == v)
            && (0 < upperLimit && ts < v.fullUntil ==> d == Decision(true, upperLimit, false, false) && w == v)
  {
  }

  /**
   * An admitted event: the expired buckets are gone, every other bucket keeps
   * its count, and only the bucket of `ts` changes, by exactly one when the
   * window's total fits in 32 bits.
   */
  lemma AdmitTouchesOneBucket(v: LimiterValue, window: u32, upperLimit: u32, interval: u32, ts: u32)
    requires interval > 0
    requires !Evaluate(v, window, upperLimit, interval, ts).0.reached
    ensures var (d, w) := Evaluate(v, window, upperLimit, interval, ts);
            var boundary := Sub(ts, window);
            var slot := Normalize(ts, interval);
            && 0 < upperLimit && v.fullUntil <= ts
            && d == Decision(false, WindowTotal(v.buckets, boundary) % Modulus + 1, true, true)
            && w.fullUntil == 0
            && slot in w.buckets
            && (forall t :: t != slot ==> (t in w.buckets <==> t in v.buckets && t > boundary))
            && (forall t :: t != slot && t in w.buckets ==> w.buckets[t] == v.buckets[t])
            && (WindowTotal(v.buckets, boundary) <= MaxValue ==>
                  w.buckets[slot] == (if slot in v.buckets && slot > boundary then v.buckets[slot] as int else 0) + 1)
  {
    var boundary := Sub(ts, window);
    var live := Pruned(v.buckets, boundary);
    var slot := Normalize(ts, interval);
    if slot in live {
      CountAtMostSum(live, slot);
    }
  }

  /**
   * A blocked event: some bucket survives, the surviving buckets are kept as
   * they are, and the cache is set to the moment the oldest of them leaves the
   * window.
   */
  lemma BlockCachesCapacityBoundary(v: LimiterValue, window: u32, upperLimit: u32, interval: u32, ts: u32)
    requires interval > 0
    requires 0 < upperLimit && v.fullUntil <= ts
    requires Evaluate(v, window, upperLimit, interval, ts).0.reached
    ensures var (d, w) := Evaluate(v, window, upperLimit, interval, ts);
            var live := Pruned(v.buckets, Sub(ts, window));
            && d == Decision(true, upperLimit, true, false)
            && live != map[]
            && upperLimit <= WindowTotal(v.buckets, Sub(ts, window))
            && w.buckets == live
            && w.fullUntil == Add(MinKey(live.Keys), window)
  {
  }

  /**
   * The cache is sound: from the blocking call until `fullUntil`, no bucket
   * that was counted leaves the window, so the window stays as full as it was.
   */
  lemma FullUntilIsSound(v: LimiterValue, window: u32, upperLimit: u32, interval: u32, ts: u32, later: u32)
    requires interval > 0
    requires 0 < upperLimit && v.fullUntil <= ts && window <= ts
    requires Evaluate(v, window, upperLimit, interval, ts).0.reached
    requires ts <= later < Evaluate(v, window, upperLimit, interval, ts).1.fullUntil
    ensures var w := Evaluate(v, window, upperLimit, interval, ts).1;
            Pruned(w.buckets, later - window) == w.buckets
            && WindowTotal(w.buckets, later - window) == WindowTotal(v.buckets, ts - window)
  {
    var w := Evaluate(v, window, upperLimit, interval, ts).1;
    var live := Pruned(v.buckets, ts - window);
    BlockCachesCapacityBoundary(v, window, upperLimit, interval, ts);
    var oldest := MinKey(live.Keys);
    assert oldest + window <= MaxValue;
    assert Pruned(w.buckets, later - window) == w.buckets;
  }

  /** An admitted event is seen by `GetCount` at the same instant. */
  lemma AdmittedEventIsCounted(v: LimiterValue, window: u32, upperLimit: u32, interval: u32, ts: u32)
    requires 0 < interval <= window <= ts
    requires !Evaluate(v, window, upperLimit, interval, ts).0.reached
    requires WindowTotal(v.buckets, ts - window) < MaxValue
    ensures var (d, w) := Evaluate(v, window, upperLimit, interval, ts);
            WindowTotal(w.buckets, ts - window) == WindowTotal(v.buckets, ts - window) + 1 == d.count
  {
    var boundary := ts - window;
    var live := Pruned(v.buckets, boundary);
    var slot := Normalize(ts, interval);
    var current := if slot in live then live[slot] else 0;
    if slot in live {
      CountAtMostSum(live, slot);
    }
    var w := Evaluate(v, window, upperLimit, interval, ts).1;
    assert w.buckets == live[slot := current + 1];
    assert Pruned(w.buckets, boundary) == w.buckets;
    SumBump(live, slot);
  }

  /** Adding one event to a bucket adds one to the sum. */
  lemma SumBump(m: map<u32, u32>, k: u32)
    requires (if k in m then m[k] else 0) < MaxValue
    ensures Sum(m[k := (if k in m then m[k] else 0) + 1]) == Sum(m) + 1
  {
    if k in m {
      SumRemove(m, k);
      SumRemove(m[k := m[k] + 1], k);
      assert m[k := m[k] + 1] - {k} == m - {k};
    } else {
      SumInsert(m, k, 1);
    }
  }

  /** A blocked event, or one turned away by the cache, leaves `GetCount` unchanged. */
  lemma BlockedCallKeepsWindowTotal(v: LimiterValue, window: u32, upperLimit: u32, interval: u32, ts: u32)
    requires interval > 0
    requires Evaluate(v, window, upperLimit, interval, ts).0.reached
    ensures var w := Evaluate(v, window, upperLimit, interval, ts).1;
            WindowTotal(w.buckets, Sub(ts, window)) == WindowTotal(v.buckets, Sub(ts, window))
  {
    var w := Evaluate(v, window, upperLimit, interval, ts).1;
    if w != v {
      var boundary := Sub(ts, window);
      assert Pruned(w.buckets, boundary) == Pruned(v.buckets, boundary);
    }
  }

  /** `n` successive calls at the same instant, with their decisions in order. */
  ghost function Repeat(v: LimiterValue, window: u32, upperLimit: u32, interval: u32, ts: u32, n: nat)
    : (r: (seq<Decision>, LimiterValue))
    requires interval > 0
    ensures |r.0| == n
  {
    if n == 0 then ([], v)
    else
      var (ds, u) := Repeat(v, window, upperLimit, interval, ts, n - 1);
      var (d, w) := Evaluate(u, window, upperLimit, interval, ts);
      (ds + [d], w)
  }

  /** The buckets after `k` admitted events in the bucket `slot`. */
  function BurstBuckets(slot: u32, k: u32): map<u32, u32>
  {
    if k == 0 then map[] else map[slot := k]
  }

  lemma SumSingleton(k: u32, c: u32)
    ensures Sum(map[k := c]) == c
  {
    SumInsert(map[], k, c);
  }

  /** One more call of a burst that has not yet reached the limit is admitted into the same bucket. */
  lemma BurstStep(window: u32, upperLimit: u32, interval: u32, ts: u32, k: u32)
    requires 0 < interval <= window <= ts
    requires k < upperLimit
    ensures var slot := Normalize(ts, interval);
            Evaluate(LimiterValue(0, BurstBuckets(slot, k)), window, upperLimit, interval, ts)
            == (Decision(false, k + 1, true, true), LimiterValue(0, BurstBuckets(slot, k + 1)))
  {
    var slot := Normalize(ts, interval);
    var u := BurstBuckets(slot, k);
    assert Pruned(u, ts - window) == u;
    if k > 0 {
      SumSingleton(slot, k);
    }
    assert u[slot := k + 1] == BurstBuckets(slot, k + 1);
  }

  lemma {:induction false} BurstPrefix(window: u32, upperLimit: u32, interval: u32, ts: u32, k: nat)
    requires 0 < interval <= window <= ts
    requires k <= upperLimit
    ensures var (ds, w) := Repeat(Fresh, window, upperLimit, interval, ts, k);
            && w == LimiterValue(0, BurstBuckets(Normalize(ts, interval), k))
            && forall i :: 0 <= i < k ==> ds[i] == Decision(false, i + 1, true, true)
  {
    if k > 0 {
      BurstPrefix(window, upperLimit, interval, ts, k - 1);
      BurstStep(window, upperLimit, interval, ts, k - 1);
    }
  }

  /**
   * A burst at one instant, from a new limiter: the first `upperLimit` calls
   * are admitted with counts 1, 2, ..., `upperLimit`; the next is blocked with
   * count `upperLimit` and caches "full" until the burst's bucket expires.
   */
  lemma BurstAtFixedInstant(window: u32, upperLimit: u32, interval: u32, ts: u32)
    requires 0 < interval <= window <= ts
    requires 0 < upperLimit
    ensures var (ds, w) := Repeat(Fresh, window, upperLimit, interval, ts, upperLimit + 1);
            && (forall i :: 0 <= i < upperLimit ==> ds[i] == Decision(false, i + 1, true, true))
            && ds[upperLimit] == Decision(true, upperLimit, true, false)
            && w == LimiterValue(Add(Normalize(ts, interval), window), map[Normalize(ts, interval) := upperLimit])
  {
    BurstPrefix(window, upperLimit, interval, ts, upperLimit);
    var slot := Normalize(ts, interval);
    var u := LimiterValue(0, map[slot := upperLimit]);
    assert Pruned(u.buckets, ts - window) == u.buckets;
    SumSingleton(slot, upperLimit);
  }

  /**
   * A window of 60 seconds, a limit of 3 and one-second buckets: calls at
   * T, T+1 and T+2 are admitted with counts 1, 2, 3; a call at T+3 is blocked
   * and caches "full" until T+60; at T+61 the buckets of T and T+1 have left
   * the window, the bucket of T+2 has not, and the call is admitted with count 2.
   */
  lemma SixtySecondWindowScenario(T: u32)
    requires 60 <= T && T + 61 <= MaxValue
    ensures var (d1, s1) := Evaluate(Fresh, 60, 3, 1, T);
            var (d2, s2) := Evaluate(s1, 60, 3, 1, T + 1);
            var (d3, s3) := Evaluate(s2, 60, 3, 1, T + 2);
            var (d4, s4) := Evaluate(s3, 60, 3, 1, T + 3);
            var (d5, s5) := Evaluate(s4, 60, 3, 1, T + 61);
            && d1 == Decision(false, 1, true, true)
            && d2 == Decision(false, 2, true, true)
            && d3 == Decision(false, 3, true, true)
            && d4 == Decision(true, 3, true, false) && s4.fullUntil == T + 60
            && d5 == Decision(false, 2, true, true)
            && s5 == LimiterValue(0, map[T + 2 := 1, T + 61 := 1])
  {
    ScenarioFirstCall(T);
    ScenarioSecondCall(T);
    ScenarioThirdCall(T);
    ScenarioFourthCall(T);
    ScenarioFifthCall(T);
  }

  lemma ScenarioFirstCall(T: u32)
    requires 60 <= T && T + 61 <= MaxValue
    ensures Evaluate(Fresh, 60, 3, 1, T) == (Decision(false, 1, true, true), LimiterValue(0, map[T := 1]))
  {
    assert Pruned(Fresh.buckets, T - 60) == map[];
  }

  lemma ScenarioSecondCall(T: u32)
    requires 60 <= T && T + 61 <= MaxValue
    ensures Evaluate(LimiterValue(0, map[T := 1]), 60, 3, 1, T + 1)
            == (Decision(false, 2, true, true), LimiterValue(0, map[T := 1, T + 1 := 1]))
  {
    assert Pruned(map[T := 1], T + 1 - 60) == map[T := 1];
    SumSingleton(T, 1);
  }

  lemma ScenarioThirdCall(T: u32)
    requires 60 <= T && T + 61 <= MaxValue
    ensures Evaluate(LimiterValue(0, map[T := 1, T + 1 := 1]), 60, 3, 1, T + 2)
            == (Decision(false, 3, true, true), LimiterValue(0, map[T := 1, T + 1 := 1, T + 2 := 1]))
  {
    var m2 := map[T := 1, T + 1 := 1];
    assert Pruned(m2, T + 2 - 60) == m2;
    assert Sum(m2) == 2 by {
      SumSingleton(T, 1);
      SumInsert(map[T := 1], T + 1, 1);
    }
    assert m2[T + 2 := 1] == map[T := 1, T + 1 := 1, T + 2 := 1];
  }

  lemma ScenarioFourthCall(T: u32)
    requires 60 <= T && T + 61 <= MaxValue
    ensures var m3 := map[T := 1, T + 1 := 1, T + 2 := 1];
            Evaluate(LimiterValue(0, m3), 60, 3, 1, T + 3) == (Decision(true, 3, true, false), LimiterValue(T + 60, m3))
  {
    var m2 := map[T := 1, T + 1 := 1];
    var m3 := map[T := 1, T + 1 := 1, T + 2 := 1];
    assert Pruned(m3, T + 3 - 60) == m3;
    assert Sum(m3) == 3 by {
      SumSingleton(T, 1);
      SumInsert(map[T := 1], T + 1, 1);
      SumInsert(m2, T + 2, 1);
      assert m2[T + 2 := 1] == m3;
    }
    assert Oldest(m3) == T by {
      var oldest := MinKey(m3.Keys);
      assert T in m3.Keys && oldest <= T;
    }
  }

  lemma ScenarioFifthCall(T: u32)
    requires 60 <= T && T + 61 <= MaxValue
    ensures var m3 := map[T := 1, T + 1 := 1, T + 2 := 1];
            Evaluate(LimiterValue(T + 60, m3), 60, 3, 1, T + 61)
            == (Decision(false, 2, true, true), LimiterValue(0, map[T + 2 := 1, T + 61 := 1]))
  {
    var m3 := map[T := 1, T + 1 := 1, T + 2 := 1];
    assert Pruned(m3, T + 1) == map[T + 2 := 1];
    SumSingleton(T + 2, 1);
    assert map[T + 2 := 1][T + 61 := 1] == map[T + 2 := 1, T + 61 := 1];
  }

  /** A limiter object: the Go `*Limiter` whose fields `LimitReached` updates in place. */
  class Limiter {
    var fullUntil: u32
    var buckets: map<u32, u32>

    function Value(): LimiterValue
      reads this
    {
      LimiterValue(fullUntil, buckets)
    }

    /** `NewLimiter`: nothing cached, no buckets. */
    constructor ()
      ensures Value() == Fresh
    {
      fullUntil := 0;
      buckets := map[];
    }

    /** A limiter rebuilt from its persisted state, as a store hands it back. */
    constructor Load(v: LimiterValue)
      ensures Value() == v
    {
      fullUntil := v.fullUntil;
      buckets := v.buckets;
    }

    /**
     * `LimitReached`: prunes the expired buckets while summing the rest, then
     * admits the event into its bucket or caches "full until". `now` is the
     * clock in epoch seconds, truncated to 32 bits as `uint32(now.Unix())` does.
     */
    method LimitReached(window: u32, upperLimit: u32, interval: u32, now: int)
      returns (reached: bool, count: u32, lmtChanged: bool, expireChanged: bool)
      requires interval > 0
      modifies this
      ensures (Decision(reached, count, lmtChanged, expireChanged), Value())
              == Evaluate(old(Value()), window, upperLimit, interval, FromInt(now))
    {
      if upperLimit == 0 {
        return true, 0, false, false;
      }
      var ts := FromInt(now);
      if ts < fullUntil {
        return true, upperLimit, false, false;
      }
      var boundary := Sub(ts, window);
      var total, oldest := PruneAndSum(boundary);
      if total < upperLimit {
        fullUntil := 0;
        var slot := Normalize(ts, interval);
        var current := if slot in buckets then buckets[slot] else 0;
        buckets := buckets[slot := Add(current, 1)];
        return false, total + 1, true, true;
      }
      fullUntil := Add(oldest, window);
      return true, upperLimit, true, false;
    }

    /**
     * The scan of limiter.go:30-42: deletes every bucket at or before
     * `boundary` while summing the counts of the others (with 32-bit
     * wrap-around) and finding the oldest of them.
     */
    method PruneAndSum(boundary: u32) returns (total: u32, oldest: u32)
      modifies this
      ensures fullUntil == old(fullUntil)
      ensures buckets == Pruned(old(buckets), boundary)
      ensures total == Sum(buckets) % Modulus
      ensures oldest == Oldest(buckets)
    {
      total := 0;
      oldest := MaxValue;
      ghost var original := buckets;
      ghost var seen: map<u32, u32> := map[];
      var pending := buckets.Keys;
      assert original - pending == map[];
      while pending != {}
        invariant pending <= original.Keys
        invariant fullUntil == old(fullUntil)
        invariant seen == Pruned(original - pending, boundary)
        invariant forall t :: t in buckets <==> t in original && (t in pending || t > boundary)
        invariant forall t :: t in buckets ==> buckets[t] == original[t]
        invariant total == Sum(seen) % Modulus
        invariant forall t :: t in seen ==> oldest <= t
        invariant seen == map[] ==> oldest == MaxValue
        invariant seen != map[] ==> oldest in seen
        decreases pending
      {
        var t :| t in pending;
        PrunedStep(original, pending, t, boundary);
        if t <= boundary {
          buckets := buckets - {t};
        } else {
          if oldest > t {
            oldest := t;
          }
          SumInsert(seen, t, buckets[t]);
          total := Add(total, buckets[t]);
          seen := seen[t := original[t]];
        }
        pending := pending - {t};
      }
      assert original - pending == original;
      assert buckets == seen;
    }

    /**
     * `GetCount`: the number of events in the window ending at `now`, summed
     * with 32-bit wrap-around; the limiter is left as it is.
     */
    method GetCount(window: u32, now: int) returns (total: u32)
      ensures total == WindowTotal(buckets, Sub(FromInt(now), window)) % Modulus
    {
      var boundary := Sub(FromInt(now), window);
      total := 0;
      var pending := buckets.Keys;
      while pending != {}
        invariant pending <= buckets.Keys
        invariant total == Sum(Pruned(buckets - pending, boundary)) % Modulus
        decreases pending
      {
        var t :| t in pending;
        PrunedStep(buckets, pending, t, boundary);
        if t > boundary {
          SumInsert(Pruned(buckets - pending, boundary), t, buckets[t]);
          total := Add(total, buckets[t]);
        }
        pending := pending - {t};
      }
      assert buckets - pending == buckets;
    }
  }
}
