# restrictor: a sliding-window rate limiter, modelled in Dafny

The Go package `restrictor` decides whether one more event for a key (a user,
an API token) would exceed a limit within a time window. It has two parts,
and the model has one module for each, plus two supporting modules.

- `SlidingWindow` (`sliding_window.dfy`, from `limiter.go`): the limiter. It
  keeps a count per bucket, keyed by the bucket's start time in epoch seconds,
  and a `fullUntil` timestamp that caches "the window is full until then".
  `Evaluate` is the reference definition of one `LimitReached` call on a
  snapshot of that state (`LimiterValue`). The class `Limiter` runs the call
  in place, as the Go code does: it deletes expired buckets while it scans
  them, then bumps one bucket or sets `fullUntil`. It is proved equal to
  `Evaluate`. `GetCount` is a read-only scan, proved equal to the sum of the
  counts inside the window.
- `Restrictors` (`restrictor.dfy`, from `restrictor.go`): the coordinator. It
  computes the bucket span, keeps its limiters under `prefix + key` in a
  shared store, and runs each decision as try-lock, load, evaluate, save if
  changed, unlock. `Decide` and `Count` are the reference definitions of a
  decision and of `GetCount` on the store's state. The methods are proved
  equal to them. The protocol properties are lemmas about them: fail-closed,
  exactly one unlock, key namespacing, the save and expiry policy, read-only
  counting.
- `Stores` (`store.dfy`): the store, as the restrictor uses it. It holds
  persisted limiters with expiries, locks held per key with the holder's
  token, an injected backend `fault`, the store's clock, and a ghost log of
  every call made into it.
- `Uint32` (`uint32.dfy`): Go's `uint32` arithmetic, wrap-around included.

All arithmetic of the limiter is `uint32` in Go, and the model wraps where Go
wraps. This covers the window boundary `ts - window`, the running total, the
bucket increment and `oldest + window`. The properties are stated with the
wrap in view. For example, `AdmitTouchesOneBucket` says the bucket grows by
exactly one when the window's total fits in 32 bits. `FullUntilIsSound` holds
without any side condition on overflow: if `oldest + window` wraps, no later
call can fall before the cached time anyway.

The clocks and the lock token that the Go code reads from `time.Now()` are
parameters. `now` is the decision time. `later` is the second clock read from
which `LimitReachedAtTimeWithCount` computes the remaining lifetime of a
stored limiter. `token` is the lock token. Durations are whole seconds.

Where the prose design of this system and the Go code disagree, the model
follows the code:

- A window shorter than one second gives a bucket span of 0, not the minimum
  of 1 that the design states (`BucketSpan` ensures `span == 0` exactly when
  the window is 0).
- In the design's example (window 60 s, limit 3, one-second buckets, calls at
  0, 1, 2, 3 and 61), the call at 61 reports count 1. The code reports 2: at
  61 the boundary is 1, so the buckets of 0 and 1 are pruned but the bucket
  of 2 survives (`SixtySecondWindowScenario`, with the times shifted by T).
- The design says a later admission keeps the previously remaining lifetime.
  In the code every admitted event resets the lifetime to the whole window.
  Only a blocked call, which writes the new `fullUntil`, keeps the remaining
  lifetime (`SavePolicy`).
- The design says load and save failures reach the caller. The code ignores
  what `SetLimiter` and `Unlock` return and reports no error once it holds the
  lock. `GetCount` returns no error even when `TryLock` failed with one,
  because it returns its own named `err`, which is still nil
  (`CountOnlyReads`).
- For times earlier than `window` seconds after the epoch, `ts - window` wraps
  and every bucket is pruned. `Evaluate` keeps this behaviour.
  `AdmittedEventIsCounted`, `FullUntilIsSound` and the burst lemmas assume
  `window <= ts`.

## Model

| member | source | states |
|---|---|---|
| `Uint32.Add` | limiter.go:40 | uint32 addition (`total += count`, `Buckets[x]++`, `oldest + window`): exact up to 2^32-1, otherwise wraps once |
| `Uint32.Sub` | limiter.go:28 | `ts - window` in uint32: exact when `window <= ts`, otherwise wraps to `ts - window + 2^32` |
| `Uint32.FromInt` | limiter.go:23 | `uint32(now.Unix())`: identity on 0..2^32-1, otherwise congruent to `now` modulo 2^32 |
| `SlidingWindow.Normalize` | limiter.go:49 | the bucket of `ts` starts at a multiple of `interval`, at most `ts` and more than `ts - interval` |
| `SlidingWindow.MinKey` | limiter.go:31-39 | the oldest surviving timestamp the scan tracks is one of the surviving keys and no later than any of them |
| `SlidingWindow.DecisionInvariants` | limiter.go:17-58 | on every path the count is at most `upperLimit`; "not changed" means the state is untouched; a blocked call adds to no bucket and does not reset the expiry; an admitted call is a change that resets the expiry, clears `fullUntil` and counts at least 1; `upperLimit == 0` gives `(true, 0, false, false)` and `ts < fullUntil` gives `(true, upperLimit, false, false)`, both without touching the state |
| `SlidingWindow.AdmitTouchesOneBucket` | limiter.go:28-52 | an admitted event: the result is `(false, total + 1, true, true)` where total is the wrapped sum of counts after the boundary; `fullUntil` becomes 0; apart from the event's bucket, exactly the keys after `ts - window` remain, with their counts; the event's bucket exists, and it grows by exactly 1 when the in-window sum fits in 32 bits |
| `SlidingWindow.BlockCachesCapacityBoundary` | limiter.go:28-57 | a blocked event after the fast path: the result is `(true, upperLimit, true, false)`; some bucket survives, and the in-window sum is at least `upperLimit`; the buckets are exactly the surviving ones with their counts; `fullUntil` is the oldest surviving key plus `window` |
| `SlidingWindow.FullUntilIsSound` | limiter.go:24-56 | after a blocking call at `ts`, at any time before the new `fullUntil` every stored bucket is still inside the window, so the in-window sum is the one that blocked, which is what the fast path assumes |
| `SlidingWindow.AdmittedEventIsCounted` | limiter.go:45-72 | when `interval <= window <= ts`, an admitted event raises the in-window sum by one, and the new sum equals the count returned |
| `SlidingWindow.BlockedCallKeepsWindowTotal` | limiter.go:19-57 | a blocked call, on the fast path or not, leaves the in-window sum at its instant unchanged |
| `SlidingWindow.BurstAtFixedInstant` | limiter.go:11-58 | from a new limiter with `0 < interval <= window <= ts`, `upperLimit` calls at `ts` return `(false, i, true, true)` for i = 1..upperLimit; the next returns `(true, upperLimit, true, false)` and caches "full" until the bucket's start plus `window` |
| `SlidingWindow.SixtySecondWindowScenario` | limiter.go:17-58 | window 60, limit 3, one-second buckets, calls at T, T+1, T+2, T+3, T+61: counts 1, 2, 3 admitted, then blocked with count 3 and `fullUntil = T+60`, then admitted with count 2 |
| `SlidingWindow.Limiter.constructor` | limiter.go:11-13 | `NewLimiter`: `fullUntil` 0, no buckets |
| `SlidingWindow.Limiter.LimitReached` | limiter.go:17-58 | the in-place call returns what `Evaluate` returns on the old state, and leaves the state `Evaluate` gives |
| `SlidingWindow.Limiter.PruneAndSum` | limiter.go:28-42 | the scan deletes exactly the buckets at or before the boundary, keeps the others with their counts, returns their sum modulo 2^32 and their oldest key (`MaxUint32` if none) |
| `SlidingWindow.Limiter.GetCount` | limiter.go:62-72 | returns the sum of the counts of the buckets after `ts - window`, modulo 2^32, and modifies nothing |
| `Stores.Store.TryLock` | restrictor.go:41 | the lock is granted exactly when the backend is healthy and no one holds the key; a failing backend reports its error; the granted lock records the token |
| `Stores.Store.GetLimiter` | restrictor.go:45 | `found` exactly when a limiter is stored; it is returned as a new object with the stored state and expiry |
| `Stores.Store.SetLimiter` | restrictor.go:55-60 | stores the limiter's state under the key, to expire `ttl` seconds after the store's clock |
| `Stores.Store.Unlock` | restrictor.go:64 | releases the lock only for the token that holds it |
| `Restrictors.BucketSpan` | restrictor.go:95-99 | the span is the ceiling of window / buckets: `span * n >= window` and `(span - 1) * n < window`; it is 0 exactly when the window is 0 |
| `Restrictors.Restrictor.constructor` | restrictor.go:93-108 | `NewRestrictor` keeps the window and limit and sets the bucket span to `BucketSpan` |
| `Restrictors.Restrictor.LockFailureFailsClosed` | restrictor.go:41-43 | when the lock is not taken, the call returns `(true, 0, err)` with the store's error, changes no entry, and makes no call but the `TryLock` |
| `Restrictors.Restrictor.LockedCallUnlocksOnce` | restrictor.go:38-66 | once the lock is taken, the error is nil; the calls are `TryLock`, `GetLimiter(prefix + key)`, an optional `SetLimiter`, then `Unlock` with the same key and token, which is the only unlock and the last call; any write uses `prefix + key` |
| `Restrictors.Restrictor.DecisionIsNamespaced` | restrictor.go:45-58 | a decision changes no entry other than the one under `prefix + key` |
| `Restrictors.Restrictor.SavePolicy` | restrictor.go:45-62 | the decision is the evaluation of the loaded limiter; the limiter is written back exactly when the evaluation changed it; an admission writes it with lifetime `window`; a blocked call writes it with the stored expiry minus `later` |
| `Restrictors.Restrictor.MissingLimiterStartsFresh` | restrictor.go:45-52 | with nothing stored, a new limiter is evaluated: limit 0 blocks without a write, otherwise the event is admitted with count 1 and saved with one bucket of count 1 and lifetime `window` |
| `Restrictors.Restrictor.OversizedWindowIsRefused` | restrictor.go:71-73 | a count window longer than the restrictor's returns 0 and the error, with no store call |
| `Restrictors.Restrictor.CountOnlyReads` | restrictor.go:74-87 | counting never writes and leaves the entries as they are; its error is always nil; if the lock is not taken it returns 0 after the `TryLock` alone; otherwise it makes `TryLock`, `GetLimiter(prefix + key)`, `Unlock`, and a missing limiter counts 0 |
| `Restrictors.Restrictor.LimitReachedAtTimeWithCount` | restrictor.go:38-66 | the results, the store's entries and the calls made are those `Decide` gives for the old store; the locks are as before the call |
| `Restrictors.Restrictor.LoadEvaluateSave` | restrictor.go:45-62 | the section under the lock: load (or start a new limiter), evaluate, and save if changed, as `Critical` gives |
| `Restrictors.Restrictor.LimitReachedAtTime` | restrictor.go:32-35 | the decision and error of `LimitReachedAtTimeWithCount`, without the count |
| `Restrictors.Restrictor.GetCount` | restrictor.go:70-87 | the count, error and store calls that `Count` gives; the store's state is unchanged |

## Left out

- `LimitReached` and `LimitReachedWithCount` (restrictor.go:21-29) are left out. They only call the `AtTime` variants with `time.Now()`.
- The clocks (`time.Now()` in restrictor.go:22, 28, 39, 59, 74, 82) are parameters: `now`, `later`, and the store's `clock`.
- The lock token (restrictor.go:39, 74) is a parameter.
- The prefix (restrictor.go:105) is a constructor parameter. Its format (nanosecond time, two random digits) is not modelled.
- Durations are whole seconds. The float conversions of `time.Duration.Seconds()` (restrictor.go:59, 71, 82, 95) and the sub-second part of the remaining lifetime are not modelled.
- `SlidingWindow.Limiter.LimitReached`: requires `interval > 0`. With an interval of 0 the Go code panics (integer division by zero, limiter.go:49) on the admit path, and the model does not represent panics.
- `SlidingWindow.Evaluate` requires `interval > 0` for the same reason.
- `Restrictors.Restrictor.LimitReachedAtTimeWithCount`: requires `bucketSpan > 0`. A restrictor whose window is under one second has span 0, and its first admitted event panics in Go.
- `Restrictors.Restrictor.LimitReachedAtTime` and `Restrictors.Restrictor.LoadEvaluateSave` require `bucketSpan > 0` for the same reason.
- `Restrictors.BucketSpan` and `Restrictors.Restrictor.constructor`: require `numberOfBuckets > 0`. Go panics dividing by zero at restrictor.go:96.
- The store is a sequential abstract store. Concrete backends, lock timeouts and takeovers, and concurrency between processes are not modelled. Eviction of expired entries is not modelled either. Other processes appear only as locks already held when a call starts.
- The store never reports a granted lock together with an error. In Go that case would fail closed without unlocking.
- The Go code ignores what `SetLimiter` and `Unlock` return, and so does the model.
- Protobuf generation and serialization of `Limiter` (limiter.go:3) are not modelled. The store keeps the limiter's state as a value.
- Go's map iteration order is not modelled. The scans pick the next key arbitrarily, and their results are proved independent of the order.
- `SlidingWindow.Limiter.PruneAndSum` is a separate method for the scan loop of limiter.go:30-42. `Restrictors.Restrictor.LoadEvaluateSave` is a separate method for the locked section of restrictor.go:45-62. The Go code runs both inline.
