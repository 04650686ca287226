/**
 * The per-configuration coordinator of restrictor.go. A restrictor turns a
 * window, a limit and a number of buckets into a bucket span, keeps its
 * limiters under its own key prefix in a shared store, and runs each decision
 * as lock, load, evaluate, save if changed, unlock.
 *
 * The clocks and the lock token the Go code draws from `time.Now()` are
 * parameters: `now` is the decision time, `later` the second clock read from
 * which the remaining lifetime of a stored limiter is computed.
 */
module Restrictors {
  import opened Uint32
  import opened SlidingWindow
  import opened Stores

  /** `NewRestrictor`'s bucket span: the window divided by the bucket count, rounded up. */
  function BucketSpan(windowSec: u32, numberOfBuckets: u32): (span: u32)
    requires numberOfBuckets > 0
    ensures span * numberOfBuckets >= windowSec
    ensures (span - 1) * numberOfBuckets < windowSec
    ensures span == 0 <==> windowSec == 0
  {
    var q := windowSec / numberOfBuckets;
    CeilingDivision(windowSec, numberOfBuckets, q, windowSec % numberOfBuckets);
    if windowSec % numberOfBuckets > 0 then q + 1 else q
  }

  /** The arithmetic behind `BucketSpan`, from the quotient and remainder of the division. */
  lemma CeilingDivision(w: nat, n: nat, q: nat, r: nat)
    requires n > 0 && w <= MaxValue
    requires w == q * n + r && r < n
    ensures r > 0 ==> q + 1 <= MaxValue && (q + 1) * n >= w && q * n < w
    ensures r == 0 ==> q * n >= w && (q - 1) * n < w && (q == 0 <==> w == 0)
  {
    assert (q + 1) * n == q * n + n;
    assert (q - 1) * n == q * n - n;
    if r > 0 {
      assert n >= 2;
      assert q * n >= q * 2;
    }
    if q > 0 {
      assert q * n >= n;
    }
  }

  /** The limiter a call starts from: the stored one, or a new one when none is stored. */
  function Loaded(entries: map<string, Entry>, storageKey: string): LimiterValue
  {
    if storageKey in entries then entries[storageKey].value else Fresh
  }

  /** The stored expiry `GetLimiter` reports; 0 when nothing is stored. */
  function StoredExpiry(entries: map<string, Entry>, storageKey: string): int
  {
    if storageKey in entries then entries[storageKey].expiry else 0
  }

  /** What a call returns and leaves behind: its results, the store's entries, and the calls it made. */
  datatype Outcome = Outcome(reached: bool, count: u32, err: Option<string>, entries: map<string, Entry>, ops: seq<StoreOp>)

  const WindowTooLarge: string := "window value can't be bigger than restrictor window"

  class Restrictor {
    /** The window, in seconds. */
    const window: u32
    /** The number of events a window admits. */
    const upperLimit: u32
    /** The time span of each bucket, in seconds. */
    const bucketSpan: u32
    /** The key prefix that separates the limiters of different restrictors. */
    const prefix: string
    const store: Store

    /**
     * `NewRestrictor`, with the window already in whole seconds and the
     * prefix, which the Go code draws from the clock and a random number,
     * given.
     */
    constructor (window: u32, limit: u32, numberOfBuckets: u32, prefix: string, store: Store)
      requires numberOfBuckets > 0
      ensures this.window == window && upperLimit == limit
      ensures bucketSpan == BucketSpan(window, numberOfBuckets)
      ensures this.prefix == prefix && this.store == store
    {
      this.window := window;
      upperLimit := limit;
      bucketSpan := BucketSpan(window, numberOfBuckets);
      this.prefix := prefix;
      this.store := store;
    }

    /**
     * The critical section of a decision, on the store's entries: load the
     * limiter under `storageKey` (a new one if none is stored), evaluate it,
     * and save it only if it changed, with the whole window as its lifetime
     * when the evaluation resets the expiry and with the stored expiry minus
     * the clock `later` otherwise. Gives the decision, the entries afterwards
     * and the store calls made.
     */
    ghost function Critical(entries: map<string, Entry>, clock: int, storageKey: string, now: int, later: int)
      : (Decision, map<string, Entry>, seq<StoreOp>)
      requires bucketSpan > 0
    {
      var (d, v) := Evaluate(Loaded(entries, storageKey), window, upperLimit, bucketSpan, FromInt(now));
      var ttl := if d.expireChanged then window as int else StoredExpiry(entries, storageKey) - later;
      (d,
       if d.changed then entries[storageKey := Entry(v, clock + ttl)] else entries,
       [GetLimiterOp(storageKey)] + (if d.changed then [SetLimiterOp(storageKey, v, ttl)] else []))
    }

    /**
     * The reference definition of `LimitReachedAtTimeWithCount` from store
     * state `s`: fail closed if the lock is not taken; otherwise run the
     * critical section on `prefix + key` and unlock.
     */
    ghost function Decide(s: StoreState, now: int, key: string, token: string, later: int): Outcome
      requires bucketSpan > 0
    {
      if s.fault.Some? || key in s.locks then
        Outcome(true, 0, s.fault, s.entries, [TryLockOp(key, token)])
      else
        var (d, entries, ops) := Critical(s.entries, s.clock, prefix + key, now, later);
        Outcome(d.reached, d.count, None, entries, [TryLockOp(key, token)] + ops + [UnlockOp(key, token)])
    }

    /**
     * The reference definition of `GetCount` from store state `s`, for a
     * window of `windowSec` seconds ending at `now`.
     */
    ghost function Count(s: StoreState, key: string, windowSec: u32, token: string, now: int): Outcome
    {
      if windowSec > window then
        Outcome(false, 0, Some(WindowTooLarge), s.entries, [])
      else if s.fault.Some? || key in s.locks then
        Outcome(false, 0, None, s.entries, [TryLockOp(key, token)])
      else
        var storageKey := prefix + key;
        var count: u32 :=
          if storageKey in s.entries
          then WindowTotal(s.entries[storageKey].value.buckets, Sub(FromInt(now), windowSec)) % Modulus
          else 0;
        Outcome(false, count, None, s.entries, [TryLockOp(key, token), GetLimiterOp(storageKey), UnlockOp(key, token)])
    }

    /** A lock that is not taken fails the call closed, and nothing else is asked of the store. */
    lemma LockFailureFailsClosed(s: StoreState, now: int, key: string, token: string, later: int)
      requires bucketSpan > 0
      requires s.fault.Some? || key in s.locks
      ensures var o := Decide(s, now, key, token, later);
              && o.reached && o.count == 0 && o.err == s.fault
              && o.entries == s.entries
              && o.ops == [TryLockOp(key, token)]
    {
    }

    /**
     * Once the lock is taken: the call reports no error, the lock is released
     * exactly once, as the last call and with the key and token that took it,
     * and the limiter is read and written under `prefix + key` only.
     */
    lemma LockedCallUnlocksOnce(s: StoreState, now: int, key: string, token: string, later: int)
      requires bucketSpan > 0
      requires s.fault.None? && key !in s.locks
      ensures var o := Decide(s, now, key, token, later);
              && o.err == None
              && 3 <= |o.ops| <= 4
              && o.ops[0] == TryLockOp(key, token)
              && o.ops[1] == GetLimiterOp(prefix + key)
              && o.ops[|o.ops| - 1] == UnlockOp(key, token)
              && (forall i :: 0 <= i < |o.ops| - 1 ==> !o.ops[i].UnlockOp?)
              && (forall i :: 0 < i < |o.ops| ==> !o.ops[i].TryLockOp?)
              && (forall i :: 0 <= i < |o.ops| && o.ops[i].SetLimiterOp? ==> o.ops[i].storageKey == prefix + key)
    {
    }

    /** A decision changes at most the entry under `prefix + key`. */
    lemma DecisionIsNamespaced(s: StoreState, now: int, key: string, token: string, later: int, other: string)
      requires bucketSpan > 0
      requires other != prefix + key
      ensures var o := Decide(s, now, key, token, later);
              && (other in o.entries <==> other in s.entries)
              && (other in s.entries ==> o.entries[other] == s.entries[other])
    {
    }

    /**
     * The save policy: the limiter is written back exactly when the evaluation
     * changed it; an admitted event gives it the whole window to live, a blocked
     * one keeps its stored expiry, measured from the clock `later`.
     */
    lemma SavePolicy(s: StoreState, now: int, key: string, token: string, later: int)
      requires bucketSpan > 0
      requires s.fault.None? && key !in s.locks
      ensures var o := Decide(s, now, key, token, later);
              var (d, v) := Evaluate(Loaded(s.entries, prefix + key), window, upperLimit, bucketSpan, FromInt(now));
              && o.reached == d.reached && o.count == d.count
              && (|o.ops| == 4 <==> d.changed)
              && (!d.changed ==> o.entries == s.entries)
              && (d.changed && !d.reached ==>
                    o.ops[2] == SetLimiterOp(prefix + key, v, window as int)
                    && o.entries == s.entries[prefix + key := Entry(v, s.clock + window as int)])
              && (d.changed && d.reached ==>
                    var ttl := StoredExpiry(s.entries, prefix + key) - later;
                    o.ops[2] == SetLimiterOp(prefix + key, v, ttl)
                    && o.entries == s.entries[prefix + key := Entry(v, s.clock + ttl)])
    {
      DecisionInvariants(Loaded(s.entries, prefix + key), window, upperLimit, bucketSpan, FromInt(now));
    }

    /**
     * With no limiter stored, a new one is evaluated: the event is admitted
     * with count 1 (unless the limit is 0, which blocks without a write) and
     * saved with the whole window to live, so the remaining-lifetime branch,
     * which would read the expiry of a missing entry, is never taken.
     */
    lemma MissingLimiterStartsFresh(s: StoreState, now: int, key: string, token: string, later: int)
      requires bucketSpan > 0
      requires s.fault.None? && key !in s.locks
      requires prefix + key !in s.entries
      ensures var o := Decide(s, now, key, token, later);
              var slot := Normalize(FromInt(now), bucketSpan);
              && (upperLimit == 0 ==> o.reached && o.count == 0 && o.entries == s.entries && |o.ops| == 3)
              && (upperLimit > 0 ==>
                    && !o.reached && o.count == 1
                    && o.entries == s.entries[prefix + key := Entry(LimiterValue(0, map[slot := 1]), s.clock + window as int)]
                    && o.ops[2] == SetLimiterOp(prefix + key, LimiterValue(0, map[slot := 1]), window as int))
    {
      assert Pruned(Fresh.buckets, Sub(FromInt(now), window)) == map[];
    }

    /** A window longer than the restrictor's is refused before the store is touched. */
    lemma OversizedWindowIsRefused(s: StoreState, key: string, windowSec: u32, token: string, now: int)
      requires windowSec > window
      ensures var o := Count(s, key, windowSec, token, now);
              o.count == 0 && o.err == Some(WindowTooLarge) && o.ops == []
    {
    }

    /**
     * `GetCount` only reads: it never writes a limiter, leaves the entries as
     * they are, releases any lock it takes, and counts 0 for a missing limiter.
     * When the lock is not taken it returns 0 and no error, even if the store
     * reported one, because it returns its own still-nil `err`.
     */
    lemma CountOnlyReads(s: StoreState, key: string, windowSec: u32, token: string, now: int)
      requires windowSec <= window
      ensures var o := Count(s, key, windowSec, token, now);
              && o.entries == s.entries
              && o.err == None
              && (forall i :: 0 <= i < |o.ops| ==> !o.ops[i].SetLimiterOp?)
              && (s.fault.Some? || key in s.locks ==> o.count == 0 && o.ops == [TryLockOp(key, token)])
              && (s.fault.None? && key !in s.locks ==>
                    o.ops == [TryLockOp(key, token), GetLimiterOp(prefix + key), UnlockOp(key, token)]
                    && (prefix + key !in s.entries ==> o.count == 0))
    {
    }

    /** `LimitReachedAtTimeWithCount`: whether the event at `now` is over the limit, and the count. */
    method LimitReachedAtTimeWithCount(now: int, key: string, token: string, later: int)
      returns (reached: bool, count: u32, err: Option<string>)
      requires bucketSpan > 0
      modifies store
      ensures var o := Decide(old(store.State()), now, key, token, later);
              && reached == o.reached && count == o.count && err == o.err
              && store.entries == o.entries
              && store.log == old(store.log) + o.ops
      ensures store.locks == old(store.locks)
      ensures store.fault == old(store.fault) && store.clock == old(store.clock)
    {
      var ok, e := store.TryLock(key, token);
      if !ok || e.Some? {
        return true, 0, e;
      }
      reached, count := LoadEvaluateSave(prefix + key, now, later);
      var _ := store.Unlock(key, token);
      return reached, count, None;
    }

    /** The critical section of `LimitReachedAtTimeWithCount`, run with the lock held. */
    method LoadEvaluateSave(storageKey: string, now: int, later: int) returns (reached: bool, count: u32)
      requires bucketSpan > 0
      modifies store
      ensures var (d, entries, ops) := Critical(old(store.entries), old(store.clock), storageKey, now, later);
              && reached == d.reached && count == d.count
              && store.entries == entries
              && store.log == old(store.log) + ops
      ensures store.locks == old(store.locks)
      ensures store.fault == old(store.fault) && store.clock == old(store.clock)
    {
      var lmt, expireTime, found := store.GetLimiter(storageKey);
      if !found {
        lmt := new Limiter();
      }
      var lmtChanged, expireChanged;
      reached, count, lmtChanged, expireChanged := lmt.LimitReached(window, upperLimit, bucketSpan, now);
      if lmtChanged {
        if expireChanged {
          store.SetLimiter(storageKey, lmt, window as int);
        } else {
          store.SetLimiter(storageKey, lmt, expireTime - later);
        }
      }
    }

    /** `LimitReachedAtTime`: the decision alone. */
    method LimitReachedAtTime(now: int, key: string, token: string, later: int)
      returns (reached: bool, err: Option<string>)
      requires bucketSpan > 0
      modifies store
      ensures var o := Decide(old(store.State()), now, key, token, later);
              && reached == o.reached && err == o.err
              && store.entries == o.entries
              && store.log == old(store.log) + o.ops
      ensures store.locks == old(store.locks)
      ensures store.fault == old(store.fault) && store.clock == old(store.clock)
    {
      var count;
      reached, count, err := LimitReachedAtTimeWithCount(now, key, token, later);
    }

    /** `GetCount`: the number of events in the window of `windowSec` seconds ending at `now`. */
    method GetCount(key: string, windowSec: u32, token: string, now: int)
      returns (count: u32, err: Option<string>)
      modifies store
      ensures var o := Count(old(store.State()), key, windowSec, token, now);
              && count == o.count && err == o.err
              && store.log == old(store.log) + o.ops
      ensures store.State() == old(store.State())
    {
      // the named results start at their zero values, as in Go
      count, err := 0, None;
      if windowSec > window {
        return 0, Some(WindowTooLarge);
      }
      var ok, e := store.TryLock(key, token);
      if !ok || e.Some? {
        return 0, err;
      }
      var lmt, _, found := store.GetLimiter(prefix + key);
      if found {
        count := lmt.GetCount(windowSec, now);
      }
      var _ := store.Unlock(key, token);
      assert store.locks == old(store.locks);
      return count, None;
    }
  }
}
