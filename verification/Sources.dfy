/** One source, `server/source.go`: what a refresh and an authentication attempt record and change, and when the
    next attempt is due. Times and durations are whole nanoseconds. */
module Sources {
  import opened Options
  import opened Powers
  import opened Times
  import opened Caches

  const MIN_AUTH_INTERVAL: int := 5 * SECOND
  const EXPIRED_RETRY_INTERVAL: int := 5 * MINUTE
  const TTL_INFINITE: int := MAX_INT64

  datatype RunTiming = RunTiming(startedAt: int, finishedAt: int)

  /** `Time.Sub` saturates at the ends of the 64-bit range. */
  function Sub(t: int, u: int): int {
    if t - u < MIN_INT64 then MIN_INT64
    else if t - u > MAX_INT64 then MAX_INT64
    else t - u
  }

  function NextAuth(expiry: int, finishedAt: int): int {
    var half := Quot(Sub(expiry, finishedAt), 2);
    var interval := if half < MIN_AUTH_INTERVAL then MIN_AUTH_INTERVAL else half;
    if finishedAt + interval > expiry then finishedAt + EXPIRED_RETRY_INTERVAL else finishedAt + interval
  }

  /** The part of a source that talks to its backend; it holds the cache of the last successful populate. */
  class Core {
    var cache: Option<Cache>

    constructor ()
      ensures cache == None
    {
      cache := None;
    }

    /** What the source last contributed. */
    ghost function Held(): Store
      reads this, if cache.Some? then {cache.value} else {}
    {
      if cache.Some? then cache.value.store else map[]
    }

    /** `Populate` with the backend's answer: the cache its certificates were collected in, or an error. */
    method Populate(found: Option<Cache>) returns (ok: bool)
      modifies this
      ensures ok == found.Some?
      ensures cache == if found.Some? then found else old(cache)
    {
      if found.None? {
        return false;
      }
      cache := found;
      return true;
    }
  }

  class Source {
    const core: Core
    var refreshRun: RunTiming
    var refreshSuccess: RunTiming
    var refreshErr: bool
    var authTTL: int
    var lastRun: RunTiming
    var lastSuccess: RunTiming
    var lastErr: bool
    var authMetadata: int

    /** What the clock guarantees: nothing is recorded as finished before it was started, and the last
        success is no later than the last run. */
    ghost predicate Valid()
      reads this
    {
      && IsInt64(authTTL)
      && lastRun.startedAt <= lastRun.finishedAt
      && lastSuccess.startedAt <= lastRun.startedAt
    }

    ghost function ExpiresAt(): int
      reads this
    {
      lastSuccess.startedAt + authTTL
    }

    constructor (now: int, core: Core)
      ensures Valid() && authTTL == 0 && this.core == core
    {
      this.core := core;
      refreshRun, refreshSuccess, refreshErr := RunTiming(now, now), RunTiming(now, now), false;
      authTTL, lastErr, authMetadata := 0, false, 0;
      lastRun := RunTiming(now, now);
      lastSuccess := RunTiming(now, now);
    }

    /** The difference between what the source contributed before and what it found now is applied to the global
        cache. A failed populate changes nothing there, and leaves the source contributing what it did. */
    method Refresh(global: Cache, found: Option<Cache>, startedAt: int, finishedAt: int)
      requires OrderedStore(global.store) && OrderedStore(core.Held())
      requires found.Some? ==> found.value != global && OrderedStore(found.value.store)
      requires core.cache.Some? ==> core.cache.value != global
      modifies this`refreshRun, this`refreshSuccess, this`refreshErr, core, global
      ensures refreshRun == RunTiming(startedAt, finishedAt) && refreshErr == found.None?
      ensures refreshSuccess == if found.Some? then refreshRun else old(refreshSuccess)
      ensures found.None? ==> global.store == old(global.store) && core.cache == old(core.cache)
      ensures found.Some? ==> core.Held() == found.value.store
      ensures found.Some? ==> global.store == DiffStore(old(global.store), old(core.Held()), old(found.value.store))
      ensures OrderedStore(global.store) && OrderedStore(core.Held())
    {
      hide DiffStore, Paths.Ordered;
      var before: Cache;
      if core.cache.Some? {
        before := core.cache.value;
      } else {
        before := new Cache();
      }
      refreshRun := RunTiming(startedAt, 0);
      var ok := core.Populate(found);
      refreshRun := refreshRun.(finishedAt := finishedAt);
      if !ok {
        refreshErr := true;
        return;
      }
      refreshErr := false;
      refreshSuccess := refreshRun;
      global.ApplyDiff(before, core.cache.value);
    }

    /** One attempt. A failed one leaves the lifetime of the last success, and with it the expiry, as it was. */
    method Auth(startedAt: int, finishedAt: int, answer: Option<(int, int)>)
      requires Valid() && lastRun.finishedAt <= startedAt <= finishedAt
      requires answer.Some? ==> IsInt64(answer.value.0)
      modifies this`lastRun, this`lastSuccess, this`lastErr, this`authTTL, this`authMetadata
      ensures Valid() && lastRun == RunTiming(startedAt, finishedAt) && lastErr == answer.None?
      ensures answer.None? ==>
                authTTL == old(authTTL) && lastSuccess == old(lastSuccess) && authMetadata == old(authMetadata)
      ensures ExpiresAt() - lastRun.finishedAt <= MAX_INT64
      ensures answer.Some? ==> ExpiresAt() == startedAt + answer.value.0 && authMetadata == answer.value.1
    {
      lastRun := RunTiming(startedAt, finishedAt);
      match answer {
        case None =>
          lastErr := true;
        case Some(a) =>
          lastErr := false;
          lastSuccess := lastRun;
          authTTL := a.0;
          authMetadata := a.1;
      }
    }

    /** The second result is true if this source should never be scheduled for authentication again. */
    method CalcNextAuth() returns (next: int, skip: bool)
      requires Valid()
      ensures skip <==> authTTL == 0x7FFF_FFFF_FFFF_FFFF
      ensures !skip ==>
                var left := lastSuccess.startedAt + authTTL - lastRun.finishedAt;
                next == lastRun.finishedAt + if left >= 10_000_000_000 then left / 2
                                             else if left >= 5_000_000_000 then 5_000_000_000
                                             else 300_000_000_000
      ensures !skip ==> next == NextAuth(ExpiresAt(), lastRun.finishedAt)
    {
      if authTTL == TTL_INFINITE {
        return 0, true;
      }
      var expiryTime := lastSuccess.startedAt + authTTL;
      var authInterval := Quot(Sub(expiryTime, lastRun.finishedAt), 2);
      if authInterval < MIN_AUTH_INTERVAL {
        authInterval := MIN_AUTH_INTERVAL;
      }
      next := lastRun.finishedAt + authInterval;
      if next > expiryTime {
        next := lastRun.finishedAt + EXPIRED_RETRY_INTERVAL;
      }
      skip := false;
    }
  }

  // ---------- a row of failing attempts

  /** When each attempt of a row finished. The next attempt starts no earlier than scheduled, and takes
      whatever it takes. What is left until expiry fits into a duration, as after every attempt. */
  ghost predicate FailingRow(expiry: int, finished: seq<int>) {
    && (forall j | 0 <= j < |finished| :: expiry - finished[j] <= MAX_INT64)
    && (forall j | 0 < j < |finished| :: NextAuth(expiry, finished[j-1]) <= finished[j])
  }

  lemma {:induction false} RemainingHalves(expiry: int, finished: seq<int>, k: nat, j: nat)
    requires FailingRow(expiry, finished) && j < |finished| && j <= k
    requires expiry - finished[0] <= MIN_AUTH_INTERVAL * Pow2(k)
    ensures expiry - finished[j] <= MIN_AUTH_INTERVAL * Pow2(k - j)
  {
    if j > 0 {
      RemainingHalves(expiry, finished, k, j - 1);
      assert Pow2(k - (j - 1)) == 2 * Pow2(k - j);
      assert NextAuth(expiry, finished[j-1]) <= finished[j];
    }
  }

  /** The back-off bound: if the remaining lifetime is at most five seconds times two to the `k`, then only the
      first `k + 1` attempts of a failing row can be scheduled at or before expiry, however long attempts and
      dispatches take. Every later one is scheduled after expiry. */
  lemma {:induction false} BackoffBound(expiry: int, finished: seq<int>, k: nat, j: nat)
    requires FailingRow(expiry, finished) && k < j < |finished|
    requires expiry - finished[0] <= MIN_AUTH_INTERVAL * Pow2(k)
    ensures NextAuth(expiry, finished[j]) > expiry
  {
    if j == k + 1 {
      RemainingHalves(expiry, finished, k, k);
      assert NextAuth(expiry, finished[j-1]) <= finished[j];
    } else {
      BackoffBound(expiry, finished, k, j - 1);
      assert NextAuth(expiry, finished[j-1]) <= finished[j];
    }
  }

  /** The row in which every attempt is dispatched on time and costs nothing. */
  function PromptRow(expiry: int, first: int, n: nat): seq<int>
    decreases n
  {
    if n == 0 then [first] else [first] + PromptRow(expiry, NextAuth(expiry, first), n - 1)
  }

  /** The bound is attained: with exactly five seconds times two to the `k` left, prompt attempts make `k + 1`. */
  lemma {:induction false} BackoffBoundIsTight(expiry: int, first: int, k: nat, j: nat)
    requires expiry - first == MIN_AUTH_INTERVAL * Pow2(k) <= MAX_INT64 && j <= k
    ensures |PromptRow(expiry, first, k)| == k + 1
    ensures NextAuth(expiry, PromptRow(expiry, first, k)[j]) <= expiry
    decreases k
  {
    if k == 0 {
    } else {
      assert Pow2(k) == 2 * Pow2(k - 1);
      assert expiry - NextAuth(expiry, first) == MIN_AUTH_INTERVAL * Pow2(k - 1);
      BackoffBoundIsTight(expiry, NextAuth(expiry, first), k - 1, if j == 0 then 0 else j - 1);
    }
  }

  lemma {:induction false} PromptRowFails(expiry: int, first: int, n: nat)
    requires expiry - first <= MAX_INT64
    ensures FailingRow(expiry, PromptRow(expiry, first, n)) && PromptRow(expiry, first, n)[0] == first
    decreases n
  {
    if n > 0 {
      var next := NextAuth(expiry, first);
      PromptRowFails(expiry, next, n - 1);
      var rest := PromptRow(expiry, next, n - 1);
      assert PromptRow(expiry, first, n) == [first] + rest;
    }
  }
}
