/** The shared-store limiter (`app/ratelimit/redis.py`): one script per call, read-only previews,
    a clamped clock, and keys that expire. */
module RedisLimiter {
  import opened TokenBucket
  import MemoryLimiter

  /** A stored hash and the server time at which the key expires. */
  datatype Entry = Entry(bucket: Bucket, expiresAt: real)

  type Store = map<string, Entry>

  predicate Live(store: Store, key: string, server: real)
  {
    key in store && server < store[key].expiresAt
  }

  /** The live bucket under `key`, as a one-key state. */
  function Fetch(store: Store, key: string, server: real): State
  {
    if Live(store, key, server) then map[key := store[key].bucket] else map[]
  }

  /** One call as a store transformer. */
  function RedisStep(p: Params, store: Store, c: Call): (Store, Result)
    requires p.refill > 0.0
  {
    var (next, r) := Step(p, Fetch(store, c.key, c.server), c);
    (if c.consume then store[c.key := Entry(next[c.key], c.server + TTL_SECONDS)] else store, r)
  }

  function RedisRun(p: Params, store: Store, calls: seq<Call>): (r: (Store, seq<Result>))
    requires p.refill > 0.0
    ensures |r.1| == |calls|
    decreases |calls|
  {
    if calls == [] then (store, [])
    else
      var (next, first) := RedisStep(p, store, calls[0]);
      var (last, rest) := RedisRun(p, next, calls[1..]);
      (last, [first] + rest)
  }

  class RedisTokenBucketRateLimit {
    const rpm: int
    const capacity: real
    const refill: real
    const prefix: string
    var store: Store

    ghost predicate Valid()
    {
      rpm > 0 ==> Params(capacity, refill) == ForRpm(rpm)
    }

    constructor (requestsPerMinute: int, keyPrefix: string)
      ensures Valid() && rpm == requestsPerMinute && prefix == keyPrefix && store == map[]
    {
      rpm := requestsPerMinute;
      var cap := (if requestsPerMinute > 0 then requestsPerMinute else 0) as real;
      capacity := cap;
      refill := if cap > 0.0 then cap / 60.0 else 0.0;
      prefix := keyPrefix;
      store := map[];
    }

    /** The part both scripts share: read the hash, default it, and refill on a clamped clock. */
    method ReadTokens(key: string, now: real, server: real) returns (tokens: real)
      requires Valid() && rpm > 0
      ensures tokens == Current(ForRpm(rpm), Fetch(store, key, server), key, now)
    {
      tokens := capacity;
      var ts := now;
      if Live(store, key, server) {
        tokens := store[key].bucket.tokens;
        ts := store[key].bucket.ts;
      }
      var elapsed := now - ts;
      if elapsed < 0.0 {
        elapsed := 0.0;
      }
      tokens := tokens + elapsed * refill;
      if tokens > capacity {
        tokens := capacity;
      }
    }

    method Allow(key: string, now: real, server: real) returns (r: Result)
      requires Valid()
      modifies this`store
      ensures rpm <= 0 ==> store == old(store) && r == Result(true, 0.0, Infinite)
      ensures rpm > 0 ==> (store, r) == RedisStep(ForRpm(rpm), old(store), Call(true, prefix + key, now, server))
    {
      if rpm <= 0 {
        return Result(true, 0.0, Infinite);
      }
      var tokens := ReadTokens(prefix + key, now, server);
      var retry := 0.0;
      var allowed := tokens >= 1.0;
      if allowed {
        tokens := tokens - 1.0;
      } else {
        retry := (1.0 - tokens) / refill;
      }
      store := store[prefix + key := Entry(Bucket(tokens, now), server + TTL_SECONDS)];
      RetryPositive(ForRpm(rpm), tokens, retry, allowed);
      r := Result(allowed, if allowed then 0.0 else Max(retry, 0.0), Finite(Whole(tokens)));
    }

    method Preview(key: string, now: real, server: real) returns (r: Result)
      requires Valid()
      ensures rpm <= 0 ==> r == Result(true, 0.0, Infinite)
      ensures rpm > 0 ==> (store, r) == RedisStep(ForRpm(rpm), store, Call(false, prefix + key, now, server))
    {
      if rpm <= 0 {
        return Result(true, 0.0, Infinite);
      }
      var tokens := ReadTokens(prefix + key, now, server);
      var allowed := tokens >= 1.0;
      var retry := 0.0;
      if !allowed {
        retry := (1.0 - tokens) / refill;
      }
      RetryPositive(ForRpm(rpm), tokens, retry, allowed);
      r := Result(allowed, if allowed then 0.0 else Max(retry, 0.0), Finite(Whole(tokens)));
    }
  }

  lemma {:induction false} RetryPositive(p: Params, tokens: real, retry: real, allowed: bool)
    requires p.refill > 0.0 && (!allowed ==> tokens < 1.0 && retry == (1.0 - tokens) / p.refill)
    ensures !allowed ==> retry > 0.0
  {
    if !allowed {
      DivBound(1.0 - tokens, p.refill, 0.0);
    }
  }

  // ---------------------------------------------------------------- expiry is unobservable

  /** Every call reads one and the same clock on both sides. */
  predicate OneClock(calls: seq<Call>)
  {
    forall i | 0 <= i < |calls| :: calls[i].server == calls[i].now
  }

  /** Same buckets as the machine that never expires a key, each due to expire TTL after its last write. */
  ghost predicate Mirrors(p: Params, store: Store, st: State)
  {
    && store.Keys == st.Keys
    && InRange(p, st)
    && forall k | k in st :: store[k] == Entry(st[k], st[k].ts + TTL_SECONDS)
  }

  /** A bucket left alone for TTL seconds is full, so dropping it changes nothing. */
  lemma {:induction false} ExpiredIsFull(p: Params, b: Bucket, now: real)
    requires Usable(p) && 0.0 <= b.tokens && now >= b.ts + TTL_SECONDS
    ensures Level(p, b, now) == p.capacity
  {
    MulMono(TTL_SECONDS, now - b.ts, p.refill);
    assert now > b.ts;
    calc {
      Gain(p, b.ts, now);
      (now - b.ts) * p.refill;
    >=
      TTL_SECONDS * p.refill;
    >=
      p.capacity;
    }
  }

  lemma {:induction false} FetchLevel(p: Params, store: Store, st: State, c: Call)
    requires Usable(p) && Mirrors(p, store, st) && c.server == c.now
    ensures Current(p, Fetch(store, c.key, c.server), c.key, c.now) == Current(p, st, c.key, c.now)
  {
    if c.key in st && !Live(store, c.key, c.server) {
      ExpiredIsFull(p, st[c.key], c.now);
    }
  }

  lemma {:induction false} StepMirrors(p: Params, store: Store, st: State, c: Call)
    requires Usable(p) && Mirrors(p, store, st) && c.server == c.now
    ensures Mirrors(p, RedisStep(p, store, c).0, Step(p, st, c).0)
    ensures RedisStep(p, store, c).1 == Step(p, st, c).1
  {
    FetchLevel(p, store, st, c);
    StepInRange(p, st, c);
  }

  /** On one clock, every run with 300-second expiry returns exactly the results of the run whose
      buckets never expire. */
  lemma {:induction false} ExpiryUnobservable(p: Params, store: Store, st: State, calls: seq<Call>)
    requires Usable(p) && Mirrors(p, store, st) && OneClock(calls)
    ensures RedisRun(p, store, calls).1 == Run(p, st, calls).1
    ensures Mirrors(p, RedisRun(p, store, calls).0, Run(p, st, calls).0)
    decreases |calls|
  {
    if calls != [] {
      StepMirrors(p, store, st, calls[0]);
      ExpiryUnobservable(p, RedisStep(p, store, calls[0]).0, Step(p, st, calls[0]).0, calls[1..]);
    }
  }

  /** The two backends agree on every run from empty: same decisions and Retry-After headers. */
  lemma {:induction false} BackendsAgree(p: Params, calls: seq<Call>, clock: real)
    requires Usable(p) && OneClock(calls) && Monotone(calls, clock)
    ensures MemoryLimiter.SameAnswers(MemoryLimiter.MemRun(p, map[], calls).1, RedisRun(p, map[], calls).1)
  {
    ExpiryUnobservable(p, map[], map[], calls);
    MemoryLimiter.RunRefines(p, map[], map[], calls, clock);
  }

  /** On one clock the window bound holds for every stretch of every run, expiries included. */
  lemma {:induction false} RedisOneClockWindowBound(p: Params, before: seq<Call>, window: seq<Call>, key: string,
                                                    from: real, to: real)
    requires Usable(p) && OneClock(before) && OneClock(window) && Within(window, from, to)
    ensures Admitted(window, RedisRun(p, RedisRun(p, map[], before).0, window).1, key) as real
         <= p.capacity + (to - from) * p.refill
  {
    ExpiryUnobservable(p, map[], map[], before);
    ExpiryUnobservable(p, RedisRun(p, map[], before).0, Run(p, map[], before).0, window);
    MonotoneWindowBound(p, Run(p, map[], before).0, window, key, from, to);
  }

  /** After a denied allow or preview, with nothing admitted on the key meanwhile, a call is allowed
      exactly from the advertised unrounded wait on. */
  lemma {:induction false} RedisRetryTight(p: Params, before: seq<Call>, denied: Call, between: seq<Call>,
                                           retry: Call, clock: real)
    requires Usable(p) && Monotone(before + [denied] + between + [retry], clock)
    requires OneClock(before + [denied] + between + [retry])
    requires denied.key == retry.key
    requires var rs := RedisRun(p, map[], before + [denied] + between + [retry]).1;
      && !rs[|before|].allowed
      && Admitted(between, rs[|before| + 1..|before| + 1 + |between|], denied.key) == 0
    ensures var rs := RedisRun(p, map[], before + [denied] + between + [retry]).1;
      rs[|before| + 1 + |between|].allowed <==> retry.now >= denied.now + rs[|before|].retryAfter
  {
    var all := before + [denied] + between + [retry];
    ExpiryUnobservable(p, map[], map[], all);
    RetryInRun(p, before, denied, between, retry, clock, Run(p, map[], all).1);
  }

  /** On one clock a call is denied exactly when admitting it would break the window bound, key
      expiry notwithstanding. */
  lemma {:induction false} RedisDeniedIffWindowFull(p: Params, calls: seq<Call>, c: Call)
    requires Usable(p) && OneClock(calls) && c.server == c.now
    ensures var (store, results) := RedisRun(p, map[], calls);
      !RedisStep(p, store, c).1.allowed <==> WindowFull(p, calls, results, c)
  {
    ExpiryUnobservable(p, map[], map[], calls);
    StepMirrors(p, RedisRun(p, map[], calls).0, Run(p, map[], calls).0, c);
    DeniedIffWindowFull(p, calls, c);
  }

  /** A reported remainder is the number of calls that still succeed at that time. */
  lemma {:induction false} RedisRemainingIsExact(p: Params, calls: seq<Call>, c: Call, again: seq<Call>, i: nat,
                                                 store: Store)
    requires Usable(p) && OneClock(calls) && c.server == c.now && OneClock(again) && i < |again|
    requires forall k | 0 <= k < |again| :: again[k].consume && again[k].key == c.key && again[k].now == c.now
    requires store == RedisRun(p, map[], calls).0
    ensures RedisStep(p, store, c).1.remaining.Finite?
    ensures RedisRun(p, RedisStep(p, store, c).0, again).1[i].allowed <==> i < RedisStep(p, store, c).1.remaining.count
  {
    var st := Run(p, map[], calls).0;
    ExpiryUnobservable(p, map[], map[], calls);
    StepMirrors(p, store, st, c);
    ExpiryUnobservable(p, RedisStep(p, store, c).0, Step(p, st, c).0, again);
    RemainingIsExact(p, st, c, again, i);
  }

  // ---------------------------------------------------------------- arbitrary clocks

  ghost predicate StoreInRange(p: Params, store: Store)
  {
    forall k | k in store :: 0.0 <= store[k].bucket.tokens <= p.capacity
  }

  /** 0 <= tokens <= capacity in every run, for any clock readings and expiries. */
  lemma {:induction false} RedisInRange(p: Params, store: Store, calls: seq<Call>)
    requires WellFormed(p) && StoreInRange(p, store)
    ensures StoreInRange(p, RedisRun(p, store, calls).0)
    decreases |calls|
  {
    if calls != [] {
      var c := calls[0];
      StepInRange(p, Fetch(store, c.key, c.server), c);
      RedisInRange(p, RedisStep(p, store, c).0, calls[1..]);
    }
  }

  /** After the first allow call on `key` in this stretch, none finds the stored bucket expired;
      `seen` says whether that first call is past. */
  ghost predicate NoExpiry(p: Params, store: Store, calls: seq<Call>, key: string, seen: bool := false)
    requires p.refill > 0.0
    decreases |calls|
  {
    if calls == [] then true
    else
      var c := calls[0];
      var own := c.consume && c.key == key;
      && (own && seen && key in store ==> Live(store, key, c.server))
      && NoExpiry(p, RedisStep(p, store, c).0, calls[1..], key, seen || own)
  }

  /** The never-expiring machine holds for `key` what the store holds. */
  ghost predicate AgreeOn(store: Store, st: State, key: string)
  {
    key in store && key in st && store[key].bucket == st[key]
  }

  lemma {:induction false} StepAgrees(p: Params, store: Store, st: State, c: Call, key: string)
    requires WellFormed(p) && AgreeOn(store, st, key)
    requires c.consume && c.key == key ==> Live(store, key, c.server)
    ensures AgreeOn(RedisStep(p, store, c).0, Step(p, st, c).0, key)
    ensures c.consume && c.key == key ==> RedisStep(p, store, c).1 == Step(p, st, c).1
  {
  }

  lemma {:induction false} SameAdmissionsWithoutExpiry(p: Params, store: Store, st: State, calls: seq<Call>,
                                                       key: string)
    requires WellFormed(p) && AgreeOn(store, st, key) && NoExpiry(p, store, calls, key, true)
    ensures Admitted(calls, RedisRun(p, store, calls).1, key) == Admitted(calls, Run(p, st, calls).1, key)
    decreases |calls|
  {
    if calls != [] {
      var c := calls[0];
      StepAgrees(p, store, st, c, key);
      SameAdmissionsWithoutExpiry(p, RedisStep(p, store, c).0, Step(p, st, c).0, calls[1..], key);
      AdmittedFirst(p, st, calls, key);
      RedisAdmittedFirst(p, store, calls, key);
    }
  }

  lemma {:induction false} RedisAdmittedFirst(p: Params, store: Store, calls: seq<Call>, key: string)
    requires p.refill > 0.0 && calls != []
    ensures Admitted(calls, RedisRun(p, store, calls).1, key)
         == (if calls[0].consume && calls[0].key == key && RedisStep(p, store, calls[0]).1.allowed then 1 else 0)
            + Admitted(calls[1..], RedisRun(p, RedisStep(p, store, calls[0]).0, calls[1..]).1, key)
  {
    assert RedisRun(p, store, calls).1[1..] == RedisRun(p, RedisStep(p, store, calls[0]).0, calls[1..]).1;
  }

  /** The first allow call on `key`, whether or not it finds a bucket, leaves at most the capacity
      less what it takes. */
  lemma {:induction false} FirstAllowPays(p: Params, store: Store, calls: seq<Call>, key: string)
    requires WellFormed(p) && StoreInRange(p, store) && NoExpiry(p, store, calls, key)
    requires calls != [] && calls[0].consume && calls[0].key == key
    ensures Admitted(calls, RedisRun(p, store, calls).1, key) as real <= p.capacity + Refilled(p, calls, key, Never)
  {
    var c, rest := calls[0], calls[1..];
    var own := Fetch(store, key, c.server);
    var st, store' := Step(p, own, c).0, RedisStep(p, store, c).0;
    StepPays(p, own, c);
    StepInRange(p, own, c);
    SameAdmissionsWithoutExpiry(p, store', st, rest, key);
    AdmissionsArePaidFor(p, st, rest, key);
    RedisAdmittedFirst(p, store, calls, key);
  }

  lemma {:induction false} StretchBound(p: Params, store: Store, calls: seq<Call>, key: string)
    requires WellFormed(p) && StoreInRange(p, store) && NoExpiry(p, store, calls, key)
    ensures Admitted(calls, RedisRun(p, store, calls).1, key) as real <= p.capacity + Refilled(p, calls, key, Never)
    decreases |calls|
  {
    if calls != [] {
      var c := calls[0];
      if c.consume && c.key == key {
        FirstAllowPays(p, store, calls, key);
      } else {
        StepInRange(p, Fetch(store, c.key, c.server), c);
        StretchBound(p, RedisStep(p, store, c).0, calls[1..], key);
        RedisAdmittedFirst(p, store, calls, key);
      }
    }
  }

  /** Window bound for arbitrary clock readings: from any point of any run, a stretch in which the
      bucket does not expire between two of its allow calls admits at most the capacity plus the
      refill over its forward steps. */
  lemma {:induction false} RedisWindowBound(p: Params, before: seq<Call>, window: seq<Call>, key: string)
    requires WellFormed(p) && NoExpiry(p, RedisRun(p, map[], before).0, window, key)
    ensures Admitted(window, RedisRun(p, RedisRun(p, map[], before).0, window).1, key) as real
         <= p.capacity + Refilled(p, window, key, Never)
  {
    RedisInRange(p, map[], before);
    StretchBound(p, RedisRun(p, map[], before).0, window, key);
  }

  /** Tokens on hand for `key`, whenever they are read: what is stored, or the capacity. */
  function OnHand(p: Params, store: Store, key: string): real
  {
    if key in store then store[key].bucket.tokens else p.capacity
  }

  lemma {:induction false} FetchAtLeast(p: Params, store: Store, c: Call)
    requires WellFormed(p) && StoreInRange(p, store)
    ensures OnHand(p, store, c.key) <= Current(p, Fetch(store, c.key, c.server), c.key, c.now) <= p.capacity
  {
    if Live(store, c.key, c.server) {
      LevelInRange(p, store[c.key].bucket, c.now);
    }
  }

  lemma {:induction false} TokensLeft(p: Params, store: Store, calls: seq<Call>, key: string)
    requires WellFormed(p) && StoreInRange(p, store)
    ensures OnHand(p, RedisRun(p, store, calls).0, key)
         >= OnHand(p, store, key) - Admitted(calls, RedisRun(p, store, calls).1, key) as real
    decreases |calls|
  {
    if calls != [] {
      var c := calls[0];
      FetchAtLeast(p, store, c);
      StepInRange(p, Fetch(store, c.key, c.server), c);
      TokensLeft(p, RedisStep(p, store, c).0, calls[1..], key);
      RedisAdmittedFirst(p, store, calls, key);
    }
  }

  /** For any clock readings and expiries, nobody is denied before using up the capacity. */
  lemma {:induction false} RedisDenialIsEarned(p: Params, calls: seq<Call>, c: Call)
    requires WellFormed(p)
    ensures var (store, results) := RedisRun(p, map[], calls);
      !RedisStep(p, store, c).1.allowed ==> Admitted(calls, results, c.key) as real > p.capacity - 1.0
  {
    RedisInRange(p, map[], calls);
    TokensLeft(p, map[], calls, c.key);
    FetchAtLeast(p, RedisRun(p, map[], calls).0, c);
  }
}
