/** The single-process limiter (`app/ratelimit/memory.py`): it writes the refilled bucket back
    even on a preview. */
module MemoryLimiter {
  import opened TokenBucket

  function Denied(p: Params, tokens: real): Result
    requires p.refill > 0.0
  {
    Result(false, Max((1.0 - tokens) / p.refill, 1.0), Finite(0))
  }

  function ResultFor(p: Params, tokens: real): Result
    requires p.refill > 0.0
  {
    if tokens >= 1.0 then Result(true, 0.0, Finite(Whole(tokens))) else Denied(p, tokens)
  }

  /** The bucket a call works on: stored or new, refilled up to `now`. */
  function Refreshed(p: Params, st: State, key: string, now: real): Bucket
  {
    var b := if key in st then st[key] else Bucket(p.capacity, now);
    Bucket(Min(p.capacity, b.tokens + (now - b.ts) * p.refill), now)
  }

  /** One call as a state transformer. */
  function MemStep(p: Params, st: State, c: Call): (State, Result)
    requires p.refill > 0.0
  {
    if c.key !in st && !c.consume then (st, Result(true, 0.0, Infinite))
    else
      var b := Refreshed(p, st, c.key, c.now);
      if c.consume && b.tokens >= 1.0 then
        (st[c.key := Bucket(b.tokens - 1.0, c.now)], Result(true, 0.0, Finite(Whole(b.tokens - 1.0))))
      else (st[c.key := b], ResultFor(p, b.tokens))
  }

  function MemRun(p: Params, st: State, calls: seq<Call>): (r: (State, seq<Result>))
    requires p.refill > 0.0
    ensures |r.1| == |calls|
    decreases |calls|
  {
    if calls == [] then (st, [])
    else
      var (next, first) := MemStep(p, st, calls[0]);
      var (last, rest) := MemRun(p, next, calls[1..]);
      (last, [first] + rest)
  }

  class InMemoryRateLimit {
    const rpm: int
    const capacity: real
    const refill: real
    var buckets: map<string, Bucket>

    ghost predicate Valid()
    {
      rpm > 0 ==> Params(capacity, refill) == ForRpm(rpm)
    }

    constructor (requestsPerMinute: int)
      ensures Valid() && rpm == requestsPerMinute && buckets == map[]
    {
      rpm := requestsPerMinute;
      var cap := (if requestsPerMinute > 0 then requestsPerMinute else 0) as real;
      capacity := cap;
      refill := if cap > 0.0 then cap / 60.0 else 0.0;
      buckets := map[];
    }

    /** `_refill_bucket`: refills in place; an unseen key is created only on request. */
    method RefillBucket(key: string, now: real, create: bool) returns (found: bool, tokens: real)
      requires Valid() && rpm > 0
      modifies this`buckets
      ensures found == (key in old(buckets) || create)
      ensures found ==> tokens == Refreshed(ForRpm(rpm), old(buckets), key, now).tokens
      ensures found ==> buckets == old(buckets)[key := Bucket(tokens, now)]
      ensures !found ==> buckets == old(buckets)
    {
      if key !in buckets {
        if !create {
          return false, 0.0;
        }
        buckets := buckets[key := Bucket(capacity, now)];
      }
      var elapsed := now - buckets[key].ts;
      tokens := Min(capacity, buckets[key].tokens + elapsed * refill);
      buckets := buckets[key := Bucket(tokens, now)];
      found := true;
    }

    method Preview(key: string, now: real) returns (r: Result)
      requires Valid()
      modifies this`buckets
      ensures rpm <= 0 ==> buckets == old(buckets) && r == Result(true, 0.0, Infinite)
      ensures rpm > 0 ==> (buckets, r) == MemStep(ForRpm(rpm), old(buckets), Call(false, key, now, now))
    {
      if rpm <= 0 {
        return Result(true, 0.0, Infinite);
      }
      var found, tokens := RefillBucket(key, now, false);
      if !found {
        return Result(true, 0.0, Infinite);
      }
      r := ResultFor(Params(capacity, refill), tokens);
    }

    method Allow(key: string, now: real) returns (r: Result)
      requires Valid()
      modifies this`buckets
      ensures rpm <= 0 ==> buckets == old(buckets) && r == Result(true, 0.0, Infinite)
      ensures rpm > 0 ==> (buckets, r) == MemStep(ForRpm(rpm), old(buckets), Call(true, key, now, now))
    {
      if rpm <= 0 {
        return Result(true, 0.0, Infinite);
      }
      var found, tokens := RefillBucket(key, now, true);
      if tokens >= 1.0 {
        buckets := buckets[key := Bucket(tokens - 1.0, now)];
        assert buckets == old(buckets)[key := Bucket(tokens - 1.0, now)];
        return Result(true, 0.0, Finite(Whole(tokens - 1.0)));
      }
      r := ResultFor(Params(capacity, refill), tokens);
    }
  }

  // ---------------------------------------------------------------- refinement

  /** Every stored bucket is the abstract one refilled up to its own time stamp. */
  ghost predicate Refines(p: Params, mem: State, st: State, clock: real)
  {
    && mem.Keys == st.Keys
    && InRange(p, st)
    && forall k | k in st ::
         st[k].ts <= mem[k].ts <= clock && mem[k].tokens == Level(p, st[k], mem[k].ts)
  }

  /** Same decision, same Retry-After header; the reported remainder differs at most for a
      preview of a key never seen. */
  ghost predicate SameAnswer(m: Result, a: Result)
  {
    && m.allowed == a.allowed
    && (!m.allowed ==> Header(m) == Header(a) && m.retryAfter >= a.retryAfter)
    && (m.remaining == a.remaining || m.remaining == Infinite)
  }

  lemma {:induction false} RoundingAbsorbsFloor(wait: real, a: Result, m: Result)
    requires a.retryAfter == wait && m.retryAfter == Max(wait, 1.0)
    ensures Header(m) == Header(a)
  {
  }

  /** The unclamped refill of an up-to-date bucket agrees with the abstract level. */
  lemma {:induction false} EagerRefill(p: Params, b: Bucket, m: Bucket, now: real)
    requires p.refill > 0.0 && b.ts <= m.ts <= now && m.tokens == Level(p, b, m.ts)
    ensures Min(p.capacity, m.tokens + (now - m.ts) * p.refill) == Level(p, b, now)
  {
    RefillTwice(p, b, m.ts, now);
    assert m == Bucket(Level(p, b, m.ts), m.ts);
    GainNonNegative(p, m.ts, now);
  }

  lemma {:induction false} RefreshedStored(p: Params, b: Bucket, mem: State, key: string, now: real)
    requires WellFormed(p) && 0.0 <= b.tokens <= p.capacity
    requires key in mem && b.ts <= mem[key].ts <= now && mem[key].tokens == Level(p, b, mem[key].ts)
    ensures Refreshed(p, mem, key, now).tokens == Level(p, b, now)
  {
    EagerRefill(p, b, mem[key], now);
  }

  lemma {:induction false} RefreshedNew(p: Params, mem: State, key: string, now: real)
    requires key !in mem
    ensures Refreshed(p, mem, key, now).tokens == p.capacity
  {
    assert (now - now) * p.refill == 0.0;
  }

  lemma {:induction false} RefreshedIsLevel(p: Params, mem: State, st: State, key: string, clock: real, now: real)
    requires WellFormed(p) && Refines(p, mem, st, clock) && clock <= now
    ensures Refreshed(p, mem, key, now).tokens == Current(p, st, key, now)
    ensures 0.0 <= Current(p, st, key, now) <= p.capacity
  {
    if key in st {
      RefreshedStored(p, st[key], mem, key, now);
      LevelInRange(p, st[key], now);
    } else {
      RefreshedNew(p, mem, key, now);
    }
  }

  lemma {:induction false} StepSameAnswer(p: Params, mem: State, st: State, c: Call, clock: real)
    requires WellFormed(p) && Refines(p, mem, st, clock) && clock <= c.now
    ensures SameAnswer(MemStep(p, mem, c).1, Step(p, st, c).1)
  {
    var level := Current(p, st, c.key, c.now);
    RefreshedIsLevel(p, mem, st, c.key, clock, c.now);
    var m, a := MemStep(p, mem, c).1, Step(p, st, c).1;
    if level < 1.0 {
      RoundingAbsorbsFloor((1.0 - level) / p.refill, a, m);
    }
  }

  lemma {:induction false} StepRefines(p: Params, mem: State, st: State, c: Call, clock: real)
    requires WellFormed(p) && Refines(p, mem, st, clock) && clock <= c.now
    ensures Refines(p, MemStep(p, mem, c).0, Step(p, st, c).0, c.now)
  {
    RefreshedIsLevel(p, mem, st, c.key, clock, c.now);
    StepInRange(p, st, c);
  }

  ghost predicate SameAnswers(ms: seq<Result>, rs: seq<Result>)
  {
    |ms| == |rs| && forall i | 0 <= i < |ms| :: SameAnswer(ms[i], rs[i])
  }

  lemma {:induction false} RunKeepsRefines(p: Params, mem: State, st: State, calls: seq<Call>, clock: real)
    requires WellFormed(p) && Refines(p, mem, st, clock) && Monotone(calls, clock)
    ensures Refines(p, MemRun(p, mem, calls).0, Run(p, st, calls).0, ClockAfter(calls, clock))
    decreases |calls|
  {
    if calls != [] {
      StepRefines(p, mem, st, calls[0], clock);
      RunKeepsRefines(p, MemStep(p, mem, calls[0]).0, Step(p, st, calls[0]).0, calls[1..], calls[0].now);
      assert ClockAfter(calls, clock) == ClockAfter(calls[1..], calls[0].now);
    }
  }

  /** On a clock that never goes back the memory limiter answers every run like the abstract bucket. */
  lemma {:induction false} RunRefines(p: Params, mem: State, st: State, calls: seq<Call>, clock: real)
    requires WellFormed(p) && Refines(p, mem, st, clock) && Monotone(calls, clock)
    ensures SameAnswers(MemRun(p, mem, calls).1, Run(p, st, calls).1)
    ensures Refines(p, MemRun(p, mem, calls).0, Run(p, st, calls).0, ClockAfter(calls, clock))
    decreases |calls|
  {
    RunKeepsRefines(p, mem, st, calls, clock);
    if calls != [] {
      var mem', st' := MemStep(p, mem, calls[0]).0, Step(p, st, calls[0]).0;
      StepRefines(p, mem, st, calls[0], clock);
      StepSameAnswer(p, mem, st, calls[0], clock);
      RunRefines(p, mem', st', calls[1..], calls[0].now);
      SameAnswersCons(MemStep(p, mem, calls[0]).1, MemRun(p, mem', calls[1..]).1,
                      Step(p, st, calls[0]).1, Run(p, st', calls[1..]).1);
    }
  }

  lemma {:induction false} SameAnswersCons(m: Result, ms: seq<Result>, a: Result, rs: seq<Result>)
    requires SameAnswer(m, a) && SameAnswers(ms, rs)
    ensures SameAnswers([m] + ms, [a] + rs)
  {
  }

  /** The memory limiter's tokens stay between 0 and the capacity in every run from empty. */
  lemma {:induction false} MemoryInRange(p: Params, calls: seq<Call>, clock: real)
    requires WellFormed(p) && Monotone(calls, clock)
    ensures InRange(p, MemRun(p, map[], calls).0)
  {
    RunRefines(p, map[], map[], calls, clock);
    var st := Run(p, map[], calls).0;
    forall k | k in st
      ensures 0.0 <= MemRun(p, map[], calls).0[k].tokens <= p.capacity
    {
      LevelInRange(p, st[k], MemRun(p, map[], calls).0[k].ts);
    }
  }

  lemma {:induction false} SameAdmissions(calls: seq<Call>, m: seq<Result>, a: seq<Result>, key: string)
    requires |calls| == |m| == |a| && forall i | 0 <= i < |calls| :: m[i].allowed == a[i].allowed
    ensures Admitted(calls, m, key) == Admitted(calls, a, key)
  {
    if calls != [] {
      SameAdmissions(calls[1..], m[1..], a[1..], key);
    }
  }

  lemma {:induction false} MemRunConcat(p: Params, st: State, a: seq<Call>, b: seq<Call>)
    requires p.refill > 0.0
    ensures MemRun(p, st, a + b).0 == MemRun(p, MemRun(p, st, a).0, b).0
    ensures MemRun(p, st, a + b).1 == MemRun(p, st, a).1 + MemRun(p, MemRun(p, st, a).0, b).1
    decreases |a|
  {
    if a == [] {
      assert a + b == b;
    } else {
      assert (a + b)[1..] == a[1..] + b;
      var next := MemStep(p, st, a[0]).0;
      MemRunConcat(p, next, a[1..], b);
      assert MemRun(p, st, a).0 == MemRun(p, next, a[1..]).0;
    }
  }

  /** In every run, between any two points: at most capacity plus refill times the elapsed time. */
  lemma {:induction false} MemoryWindowBound(p: Params, before: seq<Call>, window: seq<Call>, key: string,
                                             start: real, from: real, to: real)
    requires WellFormed(p) && Within(before, start, from) && Within(window, from, to)
    ensures Admitted(window, MemRun(p, MemRun(p, map[], before).0, window).1, key) as real
         <= p.capacity + (to - from) * p.refill
  {
    var mem, st := MemRun(p, map[], before).0, Run(p, map[], before).0;
    RunRefines(p, map[], map[], before, start);
    RunRefines(p, mem, st, window, from);
    SameAdmissions(window, MemRun(p, mem, window).1, Run(p, st, window).1, key);
    MonotoneWindowBound(p, st, window, key, from, to);
  }

  /** After a denied allow or preview, waiting out the advertised Retry-After is enough, if nothing is
      admitted on the key meanwhile. */
  lemma {:induction false} MemoryRetrySound(p: Params, before: seq<Call>, denied: Call, between: seq<Call>,
                                            retry: Call, clock: real)
    requires WellFormed(p) && Monotone(before + [denied] + between + [retry], clock)
    requires denied.key == retry.key
    requires var rs := MemRun(p, map[], before + [denied] + between + [retry]).1;
      && !rs[|before|].allowed
      && Admitted(between, rs[|before| + 1..|before| + 1 + |between|], denied.key) == 0
      && retry.now >= denied.now + Header(rs[|before|]) as real
    ensures MemRun(p, map[], before + [denied] + between + [retry]).1[|before| + 1 + |between|].allowed
  {
    var n := |before|;
    var all := before + [denied] + between + [retry];
    var mem, abs := MemRun(p, map[], all).1, Run(p, map[], all).1;
    RunRefines(p, map[], map[], all, clock);
    assert SameAnswer(mem[n], abs[n]) && SameAnswer(mem[n + 1 + |between|], abs[n + 1 + |between|]);
    SameAdmissions(between, mem[n + 1..n + 1 + |between|], abs[n + 1..n + 1 + |between|], denied.key);
    HeaderCoversWait(abs[n]);
    RetryInRun(p, before, denied, between, retry, clock, abs);
  }

  /** The stretches of two runs that admit alike leave the same room. */
  lemma {:induction false} SameWindows(p: Params, calls: seq<Call>, m: seq<Result>, a: seq<Result>, c: Call)
    requires |calls| == |m| == |a| && forall i | 0 <= i < |calls| :: m[i].allowed == a[i].allowed
    ensures WindowFull(p, calls, m, c) <==> WindowFull(p, calls, a, c)
  {
    forall j | 0 <= j <= |calls|
      ensures Room(p, calls[j..], m[j..], c.(consume := true)) == Room(p, calls[j..], a[j..], c.(consume := true))
    {
      SameAdmissions(calls[j..], m[j..], a[j..], c.key);
    }
  }

  /** In every run a call is denied exactly when admitting it would break the window bound. */
  lemma {:induction false} MemoryDeniedIffWindowFull(p: Params, calls: seq<Call>, c: Call, clock: real)
    requires WellFormed(p) && Monotone(calls, clock) && ClockAfter(calls, clock) <= c.now
    ensures var (mem, results) := MemRun(p, map[], calls);
      !MemStep(p, mem, c).1.allowed <==> WindowFull(p, calls, results, c)
  {
    RunRefines(p, map[], map[], calls, clock);
    StepSameAnswer(p, MemRun(p, map[], calls).0, Run(p, map[], calls).0, c, ClockAfter(calls, clock));
    SameWindows(p, calls, MemRun(p, map[], calls).1, Run(p, map[], calls).1, c);
    DeniedIffWindowFull(p, calls, c);
  }

  /** A reported remainder is the number of calls that still succeed at that time. */
  lemma {:induction false} MemoryRemainingIsExact(p: Params, calls: seq<Call>, c: Call, again: seq<Call>, i: nat,
                                                  clock: real, mem: State)
    requires WellFormed(p) && Monotone(calls, clock) && ClockAfter(calls, clock) <= c.now && i < |again|
    requires forall k | 0 <= k < |again| :: again[k].consume && again[k].key == c.key && again[k].now == c.now
    requires mem == MemRun(p, map[], calls).0 && MemStep(p, mem, c).1.remaining.Finite?
    ensures MemRun(p, MemStep(p, mem, c).0, again).1[i].allowed <==> i < MemStep(p, mem, c).1.remaining.count
  {
    var st := Run(p, map[], calls).0;
    RunRefines(p, map[], map[], calls, clock);
    StepSameAnswer(p, mem, st, c, ClockAfter(calls, clock));
    StepRefines(p, mem, st, c, ClockAfter(calls, clock));
    SameTimeMonotone(again, c.now);
    RunRefines(p, MemStep(p, mem, c).0, Step(p, st, c).0, again, c.now);
    assert SameAnswer(MemRun(p, MemStep(p, mem, c).0, again).1[i], Run(p, Step(p, st, c).0, again).1[i]);
    RemainingIsExact(p, st, c, again, i);
  }

  lemma {:induction false} SameTimeMonotone(calls: seq<Call>, now: real)
    requires forall k | 0 <= k < |calls| :: calls[k].now == now
    ensures Monotone(calls, now)
  {
    if calls != [] {
      SameTimeMonotone(calls[1..], now);
    }
  }

  /** A bucket exists exactly for the keys an allow call has named. */
  lemma {:induction false} BucketsAreAllowed(p: Params, mem: State, calls: seq<Call>, key: string)
    requires p.refill > 0.0
    ensures key in MemRun(p, mem, calls).0
       <==> key in mem || exists i | 0 <= i < |calls| :: calls[i].consume && calls[i].key == key
    decreases |calls|
  {
    if calls != [] {
      var rest := calls[1..];
      BucketsAreAllowed(p, MemStep(p, mem, calls[0]).0, rest, key);
      assert forall i | 0 <= i < |rest| :: rest[i] == calls[i + 1];
    }
  }

  /** The remainder is reported as infinite exactly for previews of keys no allow call has named. */
  lemma {:induction false} InfiniteIffUnseen(p: Params, calls: seq<Call>, c: Call)
    requires p.refill > 0.0
    ensures MemStep(p, MemRun(p, map[], calls).0, c).1.remaining.Infinite?
       <==> !c.consume && forall i | 0 <= i < |calls| :: calls[i].consume ==> calls[i].key != c.key
  {
    BucketsAreAllowed(p, map[], calls, c.key);
  }
}
