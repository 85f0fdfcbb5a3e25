/** The abstract token bucket shared by both rate limiters, and whole runs of calls against it. */
module TokenBucket {

  /** Bucket parameters; `ForRpm` gives the ones both backends derive from a positive limit. */
  datatype Params = Params(capacity: real, refill: real)

  const TTL_SECONDS: real := 300.0

  ghost predicate WellFormed(p: Params)
  {
    p.capacity >= 1.0 && p.refill > 0.0
  }

  /** An untouched bucket is full before the shared store drops it. */
  ghost predicate Usable(p: Params)
  {
    WellFormed(p) && TTL_SECONDS * p.refill >= p.capacity
  }

  /** `rpm` tokens a minute, and room for `rpm` of them. */
  ghost predicate PerMinute(p: Params, rpm: int)
  {
    p.capacity == rpm as real && 60.0 * p.refill == rpm as real
  }

  function ForRpm(rpm: int): (p: Params)
    requires rpm > 0
    ensures Usable(p) && PerMinute(p, rpm)
  {
    Params(rpm as real, rpm as real / 60.0)
  }

  datatype Remaining = Finite(count: nat) | Infinite

  datatype Result = Result(allowed: bool, retryAfter: real, remaining: Remaining)

  /** One call: `consume` distinguishes allow from preview; `now` is the caller's clock and
      `server` the clock of the shared store, which only its key expiry reads. */
  datatype Call = Call(consume: bool, key: string, now: real, server: real)

  datatype Bucket = Bucket(tokens: real, ts: real)

  function Max(a: real, b: real): real { if a < b then b else a }

  function Min(a: real, b: real): real { if a < b then a else b }

  function Ceil(x: real): int { -((-x).Floor) }

  /** The Retry-After header computed from a result (section 10.2.3 of RFC 9110). */
  function Header(r: Result): int
  {
    var c := Ceil(r.retryAfter);
    if c < 1 then 1 else c
  }

  function Whole(tokens: real): nat
  {
    if tokens < 0.0 then 0 else tokens.Floor
  }

  // ---------------------------------------------------------------- the abstract machine

  type State = map<string, Bucket>

  /** Tokens gained between two clock readings; time running backwards refills nothing. */
  function Gain(p: Params, since: real, now: real): real
  {
    if now <= since then 0.0 else (now - since) * p.refill
  }

  function Level(p: Params, b: Bucket, now: real): real
  {
    Min(p.capacity, b.tokens + Gain(p, b.ts, now))
  }

  function Current(p: Params, st: State, key: string, now: real): real
  {
    if key in st then Level(p, st[key], now) else p.capacity
  }

  function Step(p: Params, st: State, c: Call): (State, Result)
    requires p.refill > 0.0
  {
    var level := Current(p, st, c.key, c.now);
    var allowed := level >= 1.0;
    var left := if allowed && c.consume then level - 1.0 else level;
    var retry := if allowed then 0.0 else (1.0 - level) / p.refill;
    (if c.consume then st[c.key := Bucket(left, c.now)] else st, Result(allowed, retry, Finite(Whole(left))))
  }

  /** All results of a run, and the final state. */
  function Run(p: Params, st: State, calls: seq<Call>): (r: (State, seq<Result>))
    requires p.refill > 0.0
    ensures |r.1| == |calls|
    decreases |calls|
  {
    if calls == [] then (st, [])
    else
      var (next, first) := Step(p, st, calls[0]);
      var (last, rest) := Run(p, next, calls[1..]);
      (last, [first] + rest)
  }

  lemma {:induction false} RunConcat(p: Params, st: State, a: seq<Call>, b: seq<Call>)
    requires p.refill > 0.0
    ensures Run(p, st, a + b).0 == Run(p, Run(p, st, a).0, b).0
    ensures Run(p, st, a + b).1 == Run(p, st, a).1 + Run(p, Run(p, st, a).0, b).1
    decreases |a|
  {
    if a == [] {
      assert a + b == b;
    } else {
      assert (a + b)[1..] == a[1..] + b;
      var next := Step(p, st, a[0]).0;
      RunConcat(p, next, a[1..], b);
      assert Run(p, st, a).0 == Run(p, next, a[1..]).0;
    }
  }

  /** Calls whose clock readings never go back, none before `clock`. */
  predicate Monotone(calls: seq<Call>, clock: real)
  {
    calls == [] || (clock <= calls[0].now && Monotone(calls[1..], calls[0].now))
  }

  lemma {:induction false} MonotoneSplit(a: seq<Call>, b: seq<Call>, clock: real)
    requires Monotone(a + b, clock)
    ensures Monotone(a, clock) && Monotone(b, if a == [] then clock else a[|a| - 1].now)
  {
    if a == [] {
      assert a + b == b;
    } else {
      assert (a + b)[1..] == a[1..] + b;
      MonotoneSplit(a[1..], b, a[0].now);
    }
  }

  lemma {:induction false} MonotoneBounds(calls: seq<Call>, clock: real, i: nat)
    requires Monotone(calls, clock) && i < |calls|
    ensures clock <= calls[i].now <= calls[|calls| - 1].now
  {
    if i > 0 {
      MonotoneBounds(calls[1..], calls[0].now, i - 1);
    } else if |calls| > 1 {
      MonotoneBounds(calls[1..], calls[0].now, |calls| - 2);
    }
  }

  // ---------------------------------------------------------------- refill algebra

  lemma {:induction false} MulSum(a: real, b: real, r: real)
    ensures (a + b) * r == a * r + b * r
  {
  }

  lemma {:induction false} MulNonNegative(a: real, r: real)
    requires 0.0 <= a && 0.0 <= r
    ensures 0.0 <= a * r
  {
  }

  /** Refill over two adjacent stretches of time. */
  lemma {:induction false} RefillSplits(a: real, b: real, c: real, r: real)
    ensures (c - a) * r == (b - a) * r + (c - b) * r
  {
    MulSum(b - a, c - b, r);
    assert (b - a) + (c - b) == c - a;
  }

  lemma {:induction false} GainNonNegative(p: Params, since: real, now: real)
    requires p.refill > 0.0
    ensures 0.0 <= Gain(p, since, now)
    ensures since <= now ==> Gain(p, since, now) == (now - since) * p.refill
  {
    if since < now {
      MulNonNegative(now - since, p.refill);
    } else if since == now {
      assert (now - since) * p.refill == 0.0;
    }
  }

  lemma {:induction false} MulMono(a: real, b: real, r: real)
    requires a <= b && 0.0 <= r
    ensures a * r <= b * r
  {
    assert (b - a) * r >= 0.0;
  }

  /** Refilling to t1 and then to t2 is refilling to t2. */
  lemma {:induction false} RefillTwice(p: Params, b: Bucket, t1: real, t2: real)
    requires p.refill > 0.0 && b.ts <= t1 <= t2
    ensures Level(p, Bucket(Level(p, b, t1), t1), t2) == Level(p, b, t2)
  {
    GainNonNegative(p, b.ts, t1);
    GainNonNegative(p, t1, t2);
    GainNonNegative(p, b.ts, t2);
    RefillSplits(b.ts, t1, t2, p.refill);
  }

  ghost predicate InRange(p: Params, st: State)
  {
    forall k | k in st :: 0.0 <= st[k].tokens <= p.capacity
  }

  lemma {:induction false} LevelInRange(p: Params, b: Bucket, now: real)
    requires WellFormed(p) && 0.0 <= b.tokens <= p.capacity
    ensures b.tokens <= Level(p, b, now) <= p.capacity
  {
    GainNonNegative(p, b.ts, now);
  }

  lemma {:induction false} StepInRange(p: Params, st: State, c: Call)
    requires WellFormed(p) && InRange(p, st)
    ensures InRange(p, Step(p, st, c).0)
    ensures 0.0 <= Current(p, st, c.key, c.now) <= p.capacity
  {
    if c.key in st {
      LevelInRange(p, st[c.key], c.now);
    }
  }

  /** 0 <= tokens <= capacity throughout every run, whatever the clock does. */
  lemma {:induction false} RunInRange(p: Params, st: State, calls: seq<Call>)
    requires WellFormed(p) && InRange(p, st)
    ensures InRange(p, Run(p, st, calls).0)
    decreases |calls|
  {
    if calls != [] {
      StepInRange(p, st, calls[0]);
      RunInRange(p, Step(p, st, calls[0]).0, calls[1..]);
    }
  }

  // ---------------------------------------------------------------- the window bound

  /** Tokens taken from `key`: its allow calls that were allowed. */
  function Admitted(calls: seq<Call>, results: seq<Result>, key: string): nat
    requires |calls| == |results|
  {
    if calls == [] then 0
    else (if calls[0].consume && calls[0].key == key && results[0].allowed then 1 else 0)
         + Admitted(calls[1..], results[1..], key)
  }

  lemma {:induction false} AdmittedConcat(a: seq<Call>, b: seq<Call>, r: seq<Result>, q: seq<Result>, key: string)
    requires |a| == |r| && |b| == |q|
    ensures Admitted(a + b, r + q, key) == Admitted(a, r, key) + Admitted(b, q, key)
  {
    if a == [] {
      assert a + b == b && r + q == q;
    } else {
      assert (a + b)[1..] == a[1..] + b && (r + q)[1..] == r[1..] + q;
      AdmittedConcat(a[1..], b, r[1..], q, key);
    }
  }

  datatype Since = Never | At(time: real)

  /** Tokens gained over the forward clock movement between consecutive allow calls on `key`. */
  function Refilled(p: Params, calls: seq<Call>, key: string, last: Since): real
  {
    if calls == [] then 0.0
    else if calls[0].consume && calls[0].key == key then
      (if last.At? then Gain(p, last.time, calls[0].now) else 0.0) + Refilled(p, calls[1..], key, At(calls[0].now))
    else Refilled(p, calls[1..], key, last)
  }

  /** One call changes the key's tokens by at most its refill less what it admits. */
  lemma {:induction false} StepPays(p: Params, st: State, c: Call)
    requires WellFormed(p) && InRange(p, st) && c.consume
    ensures c.key in Step(p, st, c).0 && Step(p, st, c).0[c.key].ts == c.now
    ensures Step(p, st, c).0[c.key].tokens + (if Step(p, st, c).1.allowed then 1.0 else 0.0)
         <= if c.key in st then st[c.key].tokens + Gain(p, st[c.key].ts, c.now) else p.capacity
    ensures Step(p, st, c).0[c.key].tokens + (if Step(p, st, c).1.allowed then 1.0 else 0.0) <= p.capacity
  {
  }

  /** What the first call of a run contributes to the count. */
  lemma {:induction false} AdmittedFirst(p: Params, st: State, calls: seq<Call>, key: string)
    requires p.refill > 0.0 && calls != []
    ensures Admitted(calls, Run(p, st, calls).1, key)
         == (if calls[0].consume && calls[0].key == key && Step(p, st, calls[0]).1.allowed then 1 else 0)
            + Admitted(calls[1..], Run(p, Step(p, st, calls[0]).0, calls[1..]).1, key)
  {
    assert Run(p, st, calls).1[1..] == Run(p, Step(p, st, calls[0]).0, calls[1..]).1;
  }

  /** From a bucket in hand: admissions are paid for by its tokens and the refill since. */
  lemma {:induction false} AdmissionsArePaidFor(p: Params, st: State, calls: seq<Call>, key: string)
    requires WellFormed(p) && InRange(p, st) && key in st
    ensures Admitted(calls, Run(p, st, calls).1, key) as real
         <= st[key].tokens + Refilled(p, calls, key, At(st[key].ts))
    decreases |calls|
  {
    if calls != [] {
      var c := calls[0];
      StepInRange(p, st, c);
      AdmittedFirst(p, st, calls, key);
      if c.consume && c.key == key {
        StepPays(p, st, c);
        AdmissionsArePaidFor(p, Step(p, st, c).0, calls[1..], key);
        assert Refilled(p, calls, key, At(st[key].ts))
            == Gain(p, st[key].ts, c.now) + Refilled(p, calls[1..], key, At(c.now));
      } else {
        AdmissionsArePaidFor(p, Step(p, st, c).0, calls[1..], key);
      }
    }
  }

  /** Window bound for arbitrary clock readings: any stretch of calls admits at most the capacity
      plus the refill over the forward steps inside it. */
  lemma {:induction false} WindowBound(p: Params, st: State, calls: seq<Call>, key: string)
    requires WellFormed(p) && InRange(p, st)
    ensures Admitted(calls, Run(p, st, calls).1, key) as real <= p.capacity + Refilled(p, calls, key, Never)
    decreases |calls|
  {
    if calls != [] {
      var c := calls[0];
      StepInRange(p, st, c);
      AdmittedFirst(p, st, calls, key);
      if c.consume && c.key == key {
        StepPays(p, st, c);
        AdmissionsArePaidFor(p, Step(p, st, c).0, calls[1..], key);
      } else {
        WindowBound(p, Step(p, st, c).0, calls[1..], key);
      }
    }
  }

  /** Calls on a clock that never goes back, all made within [from, to]. */
  ghost predicate Within(calls: seq<Call>, from: real, to: real)
  {
    from <= to && Monotone(calls, from) && (calls != [] ==> calls[|calls| - 1].now <= to)
  }

  /** Within [from, to] the gains add up to at most the refill over the time since `origin`: the
      last allow call, or `from` if there was none. */
  lemma {:induction false} RefilledTelescopes(p: Params, calls: seq<Call>, key: string, last: Since,
                                              origin: real, from: real, to: real)
    requires p.refill > 0.0 && Within(calls, from, to)
    requires origin <= from && origin == if last.At? then last.time else from
    ensures Refilled(p, calls, key, last) <= (to - origin) * p.refill
  {
    if calls == [] {
      MulNonNegative(to - origin, p.refill);
    } else {
      var c, rest := calls[0], calls[1..];
      MonotoneBounds(calls, from, 0);
      if c.consume && c.key == key {
        RefilledTelescopes(p, rest, key, At(c.now), c.now, c.now, to);
        GainThenRest(p, origin, c.now, to, Refilled(p, rest, key, At(c.now)));
      } else if last.At? {
        RefilledTelescopes(p, rest, key, last, origin, c.now, to);
      } else {
        RefilledTelescopes(p, rest, key, last, c.now, c.now, to);
        GainThenRest(p, origin, c.now, to, Refilled(p, rest, key, last));
      }
    }
  }

  lemma {:induction false} GainThenRest(p: Params, origin: real, now: real, to: real, rest: real)
    requires p.refill > 0.0 && origin <= now && rest <= (to - now) * p.refill
    ensures rest <= Gain(p, origin, now) + rest <= (to - origin) * p.refill
  {
    GainNonNegative(p, origin, now);
    RefillSplits(origin, now, to, p.refill);
  }

  /** The bound for a stretch of a run on a clock that never goes back. */
  lemma {:induction false} MonotoneWindowBound(p: Params, st: State, window: seq<Call>, key: string, from: real,
                                               to: real)
    requires WellFormed(p) && InRange(p, st) && Within(window, from, to)
    ensures Admitted(window, Run(p, st, window).1, key) as real <= p.capacity + (to - from) * p.refill
  {
    WindowBound(p, st, window, key);
    RefilledTelescopes(p, window, key, Never, from, from, to);
  }

  // ---------------------------------------------------------------- why a call is denied

  /** What the calls leave for call `c`: `start` tokens and the refill up to `c`, less what they took. */
  function Budget(p: Params, start: real, last: Since, calls: seq<Call>, results: seq<Result>, c: Call): real
    requires |calls| == |results|
  {
    start + Refilled(p, calls + [c], c.key, last) - Admitted(calls, results, c.key) as real
  }

  /** What a stretch of calls leaves for `c` under the window bound. */
  function Room(p: Params, calls: seq<Call>, results: seq<Result>, c: Call): real
    requires |calls| == |results|
  {
    Budget(p, p.capacity, Never, calls, results, c)
  }

  lemma {:induction false} BudgetFirst(p: Params, start: real, last: Since, calls: seq<Call>,
                                       results: seq<Result>, c: Call)
    requires |calls| == |results| && calls != []
    ensures var d, r := calls[0], results[0];
      Budget(p, start, last, calls, results, c)
      == if d.consume && d.key == c.key then
           Budget(p, start + (if last.At? then Gain(p, last.time, d.now) else 0.0) - (if r.allowed then 1.0 else 0.0),
                  At(d.now), calls[1..], results[1..], c)
         else Budget(p, start, last, calls[1..], results[1..], c)
  {
    assert (calls + [c])[1..] == calls[1..] + [c];
  }

  lemma {:induction false} BudgetNone(p: Params, start: real, last: Since, c: Call)
    requires c.consume
    ensures Budget(p, start, last, [], [], c) == start + if last.At? then Gain(p, last.time, c.now) else 0.0
  {
    var none: seq<Call> := [];
    assert none + [c] == [c] && [c][1..] == none;
    assert Refilled(p, none, c.key, At(c.now)) == 0.0;
    assert Refilled(p, [c], c.key, last) == (if last.At? then Gain(p, last.time, c.now) else 0.0) + 0.0;
  }

  /** The level before call `c`, after `calls` from `st`: what its own bucket, or some stretch of the
      calls up to `c`, leaves for it. */
  lemma {:induction false} LevelIsSomeBudget(p: Params, st: State, calls: seq<Call>, c: Call)
    returns (own: bool, j: nat)
    requires WellFormed(p) && InRange(p, st) && c.consume
    ensures own ==> c.key in st
    ensures !own ==> j <= |calls|
    ensures Current(p, Run(p, st, calls).0, c.key, c.now)
         == if own then Budget(p, st[c.key].tokens, At(st[c.key].ts), calls, Run(p, st, calls).1, c)
            else Room(p, calls[j..], Run(p, st, calls).1[j..], c)
    decreases |calls|
  {
    var rs := Run(p, st, calls).1;
    own, j := false, 0;
    assert calls[0..] == calls && rs[0..] == rs;
    if calls == [] {
      BudgetNone(p, p.capacity, Never, c);
      own := c.key in st && Level(p, st[c.key], c.now) < p.capacity;
      if c.key in st {
        BudgetNone(p, st[c.key].tokens, At(st[c.key].ts), c);
      }
    } else {
      var d, st' := calls[0], Step(p, st, calls[0]).0;
      StepInRange(p, st, d);
      assert rs[1..] == Run(p, st', calls[1..]).1;
      own, j := LevelIsSomeBudget(p, st', calls[1..], c);
      if own {
        BudgetFirst(p, p.capacity, Never, calls, rs, c);
        if c.key in st {
          BudgetFirst(p, st[c.key].tokens, At(st[c.key].ts), calls, rs, c);
        }
        own, j := c.key in st && !(d.consume && d.key == c.key && Level(p, st[c.key], d.now) == p.capacity), 0;
      } else {
        assert calls[1..][j..] == calls[j + 1..] && rs[1..][j..] == rs[j + 1..];
        j := j + 1;
      }
    }
  }

  /** ... and never more than any of them leaves. */
  lemma {:induction false} LevelWithinBudgets(p: Params, st: State, calls: seq<Call>, c: Call, j: nat)
    requires WellFormed(p) && InRange(p, st) && c.consume && j <= |calls|
    ensures c.key in st ==>
      Current(p, Run(p, st, calls).0, c.key, c.now)
      <= Budget(p, st[c.key].tokens, At(st[c.key].ts), calls, Run(p, st, calls).1, c)
    ensures Current(p, Run(p, st, calls).0, c.key, c.now) <= Room(p, calls[j..], Run(p, st, calls).1[j..], c)
    decreases |calls|
  {
    var rs := Run(p, st, calls).1;
    assert calls[0..] == calls && rs[0..] == rs;
    if calls == [] {
      BudgetNone(p, p.capacity, Never, c);
      if c.key in st {
        BudgetNone(p, st[c.key].tokens, At(st[c.key].ts), c);
      }
    } else {
      var d, st' := calls[0], Step(p, st, calls[0]).0;
      StepInRange(p, st, d);
      assert rs[1..] == Run(p, st', calls[1..]).1;
      LevelWithinBudgets(p, st', calls[1..], c, if j == 0 then 0 else j - 1);
      if j > 0 {
        assert calls[1..][j - 1..] == calls[j..] && rs[1..][j - 1..] == rs[j..];
      }
      BudgetFirst(p, p.capacity, Never, calls, rs, c);
      if c.key in st {
        BudgetFirst(p, st[c.key].tokens, At(st[c.key].ts), calls, rs, c);
      }
    }
  }

  /** Admitting `c` after `calls` would break the window bound for some stretch of calls ending with it. */
  ghost predicate WindowFull(p: Params, calls: seq<Call>, results: seq<Result>, c: Call)
    requires |calls| == |results|
  {
    exists j | 0 <= j <= |calls| :: Room(p, calls[j..], results[j..], c.(consume := true)) < 1.0
  }

  /** A call is denied exactly when admitting it would break the window bound, whatever the clock
      does: the limiter never gives more, and never less. */
  lemma {:induction false} DeniedIffWindowFull(p: Params, calls: seq<Call>, c: Call)
    requires WellFormed(p)
    ensures !Step(p, Run(p, map[], calls).0, c).1.allowed <==> WindowFull(p, calls, Run(p, map[], calls).1, c)
  {
    var rs, d := Run(p, map[], calls).1, c.(consume := true);
    var own, j := LevelIsSomeBudget(p, map[], calls, d);
    if k :| 0 <= k <= |calls| && Room(p, calls[k..], rs[k..], d) < 1.0 {
      LevelWithinBudgets(p, map[], calls, d, k);
    }
  }

  lemma {:induction false} RefilledNonNegative(p: Params, calls: seq<Call>, key: string, last: Since)
    requires p.refill > 0.0
    ensures Refilled(p, calls, key, last) >= 0.0
  {
    if calls != [] {
      var c := calls[0];
      if c.consume && c.key == key {
        if last.At? {
          GainNonNegative(p, last.time, c.now);
        }
        RefilledNonNegative(p, calls[1..], key, At(c.now));
      } else {
        RefilledNonNegative(p, calls[1..], key, last);
      }
    }
  }

  lemma {:induction false} AdmittedInStretch(calls: seq<Call>, results: seq<Result>, key: string, j: nat)
    requires |calls| == |results| && j <= |calls|
    ensures Admitted(calls[j..], results[j..], key) <= Admitted(calls, results, key)
  {
    AdmittedConcat(calls[..j], calls[j..], results[..j], results[j..], key);
    assert calls[..j] + calls[j..] == calls && results[..j] + results[j..] == results;
  }

  /** In particular nobody is denied before using up the capacity. */
  lemma {:induction false} FullWindowIsEarned(p: Params, calls: seq<Call>, results: seq<Result>, c: Call)
    requires WellFormed(p) && |calls| == |results| && WindowFull(p, calls, results, c)
    ensures Admitted(calls, results, c.key) as real > p.capacity - 1.0
  {
    var d := c.(consume := true);
    var j :| 0 <= j <= |calls| && Room(p, calls[j..], results[j..], d) < 1.0;
    AdmittedInStretch(calls, results, c.key, j);
    RefilledNonNegative(p, calls[j..] + [d], c.key, Never);
  }

  /** A result that reports `n` tokens left is followed, at the same time, by exactly `n` admissions. */
  lemma {:induction false} RemainingIsExact(p: Params, st: State, c: Call, again: seq<Call>, i: nat)
    requires WellFormed(p) && InRange(p, st) && i < |again|
    requires forall k | 0 <= k < |again| :: again[k].consume && again[k].key == c.key && again[k].now == c.now
    ensures Step(p, st, c).1.remaining.Finite?
    ensures Run(p, Step(p, st, c).0, again).1[i].allowed <==> i < Step(p, st, c).1.remaining.count
  {
    StepInRange(p, st, c);
    BurstTakesWholeTokens(p, Step(p, st, c).0, c.key, c.now, again, i);
  }

  lemma {:induction false} BurstTakesWholeTokens(p: Params, st: State, key: string, now: real, burst: seq<Call>, i: nat)
    requires WellFormed(p) && InRange(p, st) && i < |burst|
    requires forall k | 0 <= k < |burst| :: burst[k].consume && burst[k].key == key && burst[k].now == now
    ensures Run(p, st, burst).1[i].allowed <==> i < Whole(Current(p, st, key, now))
    decreases |burst|
  {
    var c := burst[0];
    StepInRange(p, st, c);
    if i > 0 {
      BurstTakesWholeTokens(p, Step(p, st, c).0, key, now, burst[1..], i - 1);
      assert Run(p, st, burst).1[i] == Run(p, Step(p, st, c).0, burst[1..]).1[i - 1];
      WholeLess(Current(p, st, key, now));
    }
  }

  lemma {:induction false} WholeLess(level: real)
    requires level >= 0.0
    ensures level >= 1.0 ==> Whole(level - 1.0) == Whole(level) - 1
    ensures level < 1.0 ==> Whole(level) == 0
  {
  }

  /** A window bound in terms of the limiter's parameters, for one built for `rpm` requests a minute:
      `rpm` plus `rpm` for every 60 seconds. */
  lemma {:induction false} MinuteBound(p: Params, rpm: int, admitted: nat, elapsed: real)
    requires PerMinute(p, rpm) && admitted as real <= p.capacity + elapsed * p.refill
    ensures 60.0 * admitted as real <= 60.0 * rpm as real + elapsed * rpm as real
  {
    MulSixty(elapsed, p.refill);
  }

  lemma {:induction false} MulSixty(a: real, r: real)
    ensures a * (60.0 * r) == 60.0 * (a * r)
  {
  }

  // ---------------------------------------------------------------- retry advice

  /** While nothing is admitted on `key`, its level at any later time stays what it was going to be. */
  lemma {:induction false} LevelUntouched(p: Params, st: State, calls: seq<Call>, key: string, clock: real, later: real)
    requires WellFormed(p) && key in st && st[key].ts <= clock && Monotone(calls, clock)
    requires Admitted(calls, Run(p, st, calls).1, key) == 0
    requires forall i | 0 <= i < |calls| :: calls[i].now <= later
    ensures key in Run(p, st, calls).0
    ensures Current(p, Run(p, st, calls).0, key, later) == Current(p, st, key, later)
    decreases |calls|
  {
    if calls != [] {
      var c := calls[0];
      if c.consume && c.key == key {
        RefillTwice(p, st[key], c.now, later);
      }
      LevelUntouched(p, Step(p, st, c).0, calls[1..], key, c.now, later);
    }
  }

  lemma {:induction false} DivBound(x: real, r: real, y: real)
    requires r > 0.0
    ensures y >= x / r <==> y * r >= x
  {
    var q := x / r;
    assert q * r == x;
    if y >= q { MulMono(q, y, r); } else { MulMono(y, q, r); assert (q - y) * r > 0.0; }
  }

  /** A bucket short of one token reaches it exactly after the wait (1 - tokens) / refill. */
  lemma {:induction false} WaitIsExact(p: Params, b: Bucket, now: real)
    requires WellFormed(p) && b.tokens < 1.0 && b.ts <= now
    ensures Level(p, b, now) >= 1.0 <==> now >= b.ts + (1.0 - b.tokens) / p.refill
  {
    GainNonNegative(p, b.ts, now);
    DivBound(1.0 - b.tokens, p.refill, now - b.ts);
  }

  /** A denial, by allow or by preview, leaves a bucket whose level grows from the denied level on. */
  lemma {:induction false} AfterDenial(p: Params, st: State, denied: Call, later: real)
    requires WellFormed(p) && !Step(p, st, denied).1.allowed && denied.now <= later
    requires !denied.consume && denied.key in st ==> st[denied.key].ts <= denied.now
    ensures denied.key in Step(p, st, denied).0 && Step(p, st, denied).0[denied.key].ts <= denied.now
    ensures Current(p, Step(p, st, denied).0, denied.key, later)
         == Level(p, Bucket(Current(p, st, denied.key, denied.now), denied.now), later)
  {
    if !denied.consume {
      RefillTwice(p, st[denied.key], denied.now, later);
    }
  }

  lemma {:induction false} AllBefore(between: seq<Call>, retry: Call, clock: real)
    requires Monotone(between + [retry], clock)
    ensures Monotone(between, clock) && clock <= retry.now
    ensures forall i | 0 <= i < |between| :: between[i].now <= retry.now
  {
    var calls := between + [retry];
    MonotoneSplit(between, [retry], clock);
    MonotoneBounds(calls, clock, |calls| - 1);
    forall i | 0 <= i < |between|
      ensures between[i].now <= retry.now
    {
      MonotoneBounds(calls, clock, i);
      assert calls[i] == between[i] && calls[|calls| - 1] == retry;
    }
  }

  /** After a denied call, allow or preview, and with nothing admitted on the key meanwhile, a later
      call is allowed exactly when the advertised exact wait has passed. Only a preview, which
      writes nothing, needs the stored bucket not to lie in its future. */
  lemma {:induction false} RetryAdviceExact(p: Params, st: State, denied: Call, between: seq<Call>, retry: Call)
    requires WellFormed(p)
    requires !Step(p, st, denied).1.allowed
    requires !denied.consume && denied.key in st ==> st[denied.key].ts <= denied.now
    requires retry.key == denied.key
    requires Monotone(between + [retry], denied.now)
    requires Admitted(between, Run(p, Step(p, st, denied).0, between).1, denied.key) == 0
    ensures Step(p, Run(p, Step(p, st, denied).0, between).0, retry).1.allowed
       <==> retry.now >= denied.now + Step(p, st, denied).1.retryAfter
  {
    var after := Step(p, st, denied).0;
    AllBefore(between, retry, denied.now);
    AfterDenial(p, st, denied, retry.now);
    LevelUntouched(p, after, between, denied.key, denied.now, retry.now);
    WaitIsExact(p, Bucket(Current(p, st, denied.key, denied.now), denied.now), retry.now);
  }

  /** No bucket carries a time after `clock`. */
  ghost predicate Stamped(st: State, clock: real)
  {
    forall k | k in st :: st[k].ts <= clock
  }

  /** The clock after a run that started at `clock`. */
  function ClockAfter(calls: seq<Call>, clock: real): real
  {
    if calls == [] then clock else calls[|calls| - 1].now
  }

  lemma {:induction false} RunStamped(p: Params, st: State, calls: seq<Call>, clock: real)
    requires p.refill > 0.0 && Stamped(st, clock) && Monotone(calls, clock)
    ensures Stamped(Run(p, st, calls).0, ClockAfter(calls, clock))
    decreases |calls|
  {
    if calls != [] {
      RunStamped(p, Step(p, st, calls[0]).0, calls[1..], calls[0].now);
      assert ClockAfter(calls, clock) == ClockAfter(calls[1..], calls[0].now);
    }
  }

  /** The results of a run cut at a denied call, the calls after it and the retry. */
  lemma {:induction false} RunAroundRetry(p: Params, before: seq<Call>, denied: Call, between: seq<Call>,
                                          retry: Call, rs: seq<Result>)
    requires p.refill > 0.0 && rs == Run(p, map[], before + [denied] + between + [retry]).1
    ensures rs[|before|] == Step(p, Run(p, map[], before).0, denied).1
    ensures rs[|before| + 1..|before| + 1 + |between|]
         == Run(p, Step(p, Run(p, map[], before).0, denied).0, between).1
    ensures rs[|before| + 1 + |between|]
         == Step(p, Run(p, Step(p, Run(p, map[], before).0, denied).0, between).0, retry).1
  {
    var st := Run(p, map[], before).0;
    var after := Step(p, st, denied).0;
    var tail := between + [retry];
    assert before + [denied] + between + [retry] == before + ([denied] + tail);
    RunConcat(p, map[], before, [denied] + tail);
    var middle := Run(p, st, [denied] + tail).1;
    assert rs == Run(p, map[], before).1 + middle;
    assert ([denied] + tail)[1..] == tail;
    assert middle == [Step(p, st, denied).1] + Run(p, after, tail).1;
    RunConcat(p, after, between, [retry]);
    RunOne(p, Run(p, after, between).0, retry);
  }

  /** The exact advice inside a whole run from empty buckets. */
  lemma {:induction false} RetryInRun(p: Params, before: seq<Call>, denied: Call, between: seq<Call>, retry: Call,
                                      clock: real, rs: seq<Result>)
    requires WellFormed(p) && Monotone(before + [denied] + between + [retry], clock)
    requires denied.key == retry.key
    requires rs == Run(p, map[], before + [denied] + between + [retry]).1
    requires !rs[|before|].allowed
    requires Admitted(between, rs[|before| + 1..|before| + 1 + |between|], denied.key) == 0
    ensures rs[|before| + 1 + |between|].allowed <==> retry.now >= denied.now + rs[|before|].retryAfter
  {
    RunAroundRetry(p, before, denied, between, retry, rs);
    assert before + [denied] + between + [retry] == (before + [denied]) + (between + [retry]);
    MonotoneSplit(before + [denied], between + [retry], clock);
    MonotoneSplit(before, [denied], clock);
    RunStamped(p, map[], before, clock);
    RetryAdviceExact(p, Run(p, map[], before).0, denied, between, retry);
  }

  lemma {:induction false} RunOne(p: Params, st: State, c: Call)
    requires p.refill > 0.0
    ensures Run(p, st, [c]).1 == [Step(p, st, c).1]
  {
    assert [c][1..] == [];
  }

  /** The header never advertises less than the exact wait. */
  lemma {:induction false} HeaderCoversWait(r: Result)
    ensures Header(r) as real >= r.retryAfter && Header(r) >= 1
    ensures Header(r) as real < Max(r.retryAfter + 1.0, 2.0)
  {
  }
}
