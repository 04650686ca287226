/**
 * The store a restrictor coordinates through. Its Go interface is not part of
 * this model; what the restrictor needs of it is read off restrictor.go: an
 * exclusive try-lock per caller key, and a persisted limiter with an expiry
 * per storage key. The store here is sequential: other processes show up only
 * as locks already held when a call begins, and failures of the backend as an
 * injected `fault`.
 */
module Stores {
  import opened SlidingWindow

  datatype Option<T> = None | Some(value: T)

  /** A persisted limiter and the moment it expires, in epoch seconds. */
  datatype Entry = Entry(value: LimiterValue, expiry: int)

  /** One call into the store, as it appears in the store's log. */
  datatype StoreOp =
    | TryLockOp(key: string, token: string)
    | GetLimiterOp(storageKey: string)
    | SetLimiterOp(storageKey: string, value: LimiterValue, ttl: int)
    | UnlockOp(key: string, token: string)

  /** The part of a store that a call can read or change. */
  datatype StoreState = StoreState(
    entries: map<string, Entry>,
    locks: map<string, string>,
    fault: Option<string>,
    clock: int)

  class Store {
    /** Persisted limiters, by storage key. */
    var entries: map<string, Entry>
    /** Held locks: caller key to the token of the holder. */
    var locks: map<string, string>
    /** The error the backend reports to lock attempts, if it is failing. */
    var fault: Option<string>
    /** The store's own clock, in epoch seconds, from which expiries are set. */
    var clock: int
    /** Every call made into the store, in order. */
    ghost var log: seq<StoreOp>

    function State(): StoreState
      reads this
    {
      StoreState(entries, locks, fault, clock)
    }

    constructor (fault: Option<string>, clock: int)
      ensures State() == StoreState(map[], map[], fault, clock)
      ensures log == []
    {
      entries := map[];
      locks := map[];
      this.fault := fault;
      this.clock := clock;
      log := [];
    }

    /**
     * Non-blocking attempt to take the lock of `key` for `token`: fails when
     * the backend is failing (with its error) or the lock is held (without one).
     */
    method TryLock(key: string, token: string) returns (ok: bool, err: Option<string>)
      modifies this
      ensures ok == (old(fault).None? && key !in old(locks))
      ensures err == old(fault)
      ensures locks == if ok then old(locks)[key := token] else old(locks)
      ensures entries == old(entries) && fault == old(fault) && clock == old(clock)
      ensures log == old(log) + [TryLockOp(key, token)]
    {
      if fault.Some? {
        ok, err := false, fault;
      } else if key in locks {
        ok, err := false, None;
      } else {
        locks := locks[key := token];
        ok, err := true, None;
      }
      log := log + [TryLockOp(key, token)];
    }

    /** Releases the lock of `key` if `token` holds it; a stale token changes nothing. */
    method Unlock(key: string, token: string) returns (err: Option<string>)
      modifies this
      ensures var held := key in old(locks) && old(locks)[key] == token;
              && locks == (if held then old(locks) - {key} else old(locks))
              && err == (if held then None else Some("lock not held by this token"))
      ensures entries == old(entries) && fault == old(fault) && clock == old(clock)
      ensures log == old(log) + [UnlockOp(key, token)]
    {
      if key in locks && locks[key] == token {
        locks := locks - {key};
        err := None;
      } else {
        err := Some("lock not held by this token");
      }
      log := log + [UnlockOp(key, token)];
    }

    /** Loads the limiter persisted under `storageKey` as a new object, with its expiry. */
    method GetLimiter(storageKey: string) returns (lmt: Limiter?, expiry: int, found: bool)
      modifies this
      ensures found == (storageKey in entries)
      ensures found ==> lmt != null && fresh(lmt) && lmt.Value() == entries[storageKey].value
      ensures found ==> expiry == entries[storageKey].expiry
      ensures !found ==> lmt == null && expiry == 0
      ensures State() == old(State())
      ensures log == old(log) + [GetLimiterOp(storageKey)]
    {
      found := storageKey in entries;
      if found {
        lmt := new Limiter.Load(entries[storageKey].value);
        expiry := entries[storageKey].expiry;
      } else {
        lmt, expiry := null, 0;
      }
      log := log + [GetLimiterOp(storageKey)];
    }

    /** Persists the state of `lmt` under `storageKey`, to expire `ttl` seconds from now. */
    method SetLimiter(storageKey: string, lmt: Limiter, ttl: int)
      modifies this
      ensures entries == old(entries)[storageKey := Entry(lmt.Value(), old(clock) + ttl)]
      ensures locks == old(locks) && fault == old(fault) && clock == old(clock)
      ensures log == old(log) + [SetLimiterOp(storageKey, lmt.Value(), ttl)]
    {
      entries := entries[storageKey := Entry(lmt.Value(), clock + ttl)];
      log := log + [SetLimiterOp(storageKey, lmt.Value(), ttl)];
    }
  }
}
