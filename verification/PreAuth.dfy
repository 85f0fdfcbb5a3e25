/** Throttling of failed authentication per client address (`PreAuthRateLimitMiddleware.dispatch`),
    as interleaved steps of any number of concurrent requests sharing one limiter of either kind. */
module PreAuth {
  import opened TokenBucket
  import opened MemoryLimiter
  import opened RedisLimiter

  /** The backend the middleware was built with. */
  datatype Limiter = Memory(buckets: State) | Redis(store: Store)

  /** Where a request that passed its preview stands: inside the application, or answered 401
      there and waiting to be charged. */
  datatype Phase = Running(key: string) | Charging(key: string)

  datatype World = World(limiter: Limiter, phase: map<nat, Phase>)

  datatype Action =
    | Arrive(id: nat, key: string, now: real, server: real)
    | Respond(id: nat, status: int)
    | Charge(id: nat, now: real, server: real)

  /** What leaves the middleware: the response of the application, or its own 429 with the
      Retry-After header. */
  datatype Response = Passed(id: nat, key: string, status: int) | Throttled(id: nat, key: string, retryAfter: int)

  /** What one step did: the limiter call it made, if any, its result, and the response it sent. */
  datatype Trace = Trace(calls: seq<Call>, results: seq<Result>, sent: seq<Response>)

  const QUIET := Trace([], [], [])

  function Ask(p: Params, l: Limiter, c: Call): (r: (Limiter, Result))
    requires p.refill > 0.0
    ensures r.0.Redis? == l.Redis?
  {
    match l
    case Memory(buckets) => var (next, r) := MemStep(p, buckets, c); (Memory(next), r)
    case Redis(store) => var (next, r) := RedisStep(p, store, c); (Redis(next), r)
  }

  function AskAll(p: Params, l: Limiter, calls: seq<Call>): (r: (Limiter, seq<Result>))
    requires p.refill > 0.0
    ensures |r.1| == |calls| && r.0.Redis? == l.Redis?
    decreases |calls|
  {
    if calls == [] then (l, [])
    else
      var (next, first) := Ask(p, l, calls[0]);
      var (last, rest) := AskAll(p, next, calls[1..]);
      (last, [first] + rest)
  }

  /** One atomic step; an action whose request is not at that point does nothing. */
  function Act(p: Params, w: World, a: Action): (World, Trace)
    requires p.refill > 0.0
  {
    match a
    case Arrive(id, key, now, server) =>
      if id in w.phase then (w, QUIET)
      else
        var call := Call(false, key, now, server);
        var (next, preview) := Ask(p, w.limiter, call);
        if preview.allowed then (World(next, w.phase[id := Running(key)]), Trace([call], [preview], []))
        else (w.(limiter := next), Trace([call], [preview], [Throttled(id, key, Header(preview))]))
    case Respond(id, status) =>
      if id !in w.phase || !w.phase[id].Running? then (w, QUIET)
      else
        var key := w.phase[id].key;
        if status == 401 then (w.(phase := w.phase[id := Charging(key)]), QUIET)
        else (w.(phase := w.phase - {id}), Trace([], [], [Passed(id, key, status)]))
    case Charge(id, now, server) =>
      if id !in w.phase || !w.phase[id].Charging? then (w, QUIET)
      else
        var key := w.phase[id].key;
        var call := Call(true, key, now, server);
        var (next, charged) := Ask(p, w.limiter, call);
        var response := if charged.allowed then Passed(id, key, 401) else Throttled(id, key, Header(charged));
        (World(next, w.phase - {id}), Trace([call], [charged], [response]))
  }

  function ActAll(p: Params, w: World, actions: seq<Action>): (World, Trace)
    requires p.refill > 0.0
    decreases |actions|
  {
    if actions == [] then (w, QUIET)
    else
      var (mid, first) := Act(p, w, actions[0]);
      var (last, rest) := ActAll(p, mid, actions[1..]);
      (last, Trace(first.calls + rest.calls, first.results + rest.results, first.sent + rest.sent))
  }

  // ---------------------------------------------------------------- 401 responses are tokens

  function Sent401(sent: seq<Response>, key: string): nat
  {
    if sent == [] then 0
    else (if sent[0].Passed? && sent[0].key == key && sent[0].status == 401 then 1 else 0) + Sent401(sent[1..], key)
  }

  lemma {:induction false} Sent401Concat(a: seq<Response>, b: seq<Response>, key: string)
    ensures Sent401(a + b, key) == Sent401(a, key) + Sent401(b, key)
  {
    if a == [] {
      assert a + b == b;
    } else {
      assert (a + b)[1..] == a[1..] + b;
      Sent401Concat(a[1..], b, key);
    }
  }

  lemma {:induction false} AskOne(p: Params, l: Limiter, c: Call)
    requires p.refill > 0.0
    ensures AskAll(p, l, [c]).0 == Ask(p, l, c).0
    ensures AskAll(p, l, [c]).1 == [Ask(p, l, c).1]
  {
    assert [c][1..] == [];
  }

  lemma {:induction false} AskAllConcat(p: Params, l: Limiter, a: seq<Call>, b: seq<Call>)
    requires p.refill > 0.0
    ensures AskAll(p, l, a + b).0 == AskAll(p, AskAll(p, l, a).0, b).0
    ensures AskAll(p, l, a + b).1 == AskAll(p, l, a).1 + AskAll(p, AskAll(p, l, a).0, b).1
    decreases |a|
  {
    if a == [] {
      assert a + b == b;
    } else {
      assert (a + b)[1..] == a[1..] + b;
      var next := Ask(p, l, a[0]).0;
      AskAllConcat(p, next, a[1..], b);
      assert AskAll(p, l, a).0 == AskAll(p, next, a[1..]).0;
    }
  }

  /** One step is faithful to the limiter, and sends a 401 exactly when it takes a token. */
  lemma {:induction false} ActFaithful(p: Params, w: World, a: Action, key: string)
    requires p.refill > 0.0
    ensures var (w', t) := Act(p, w, a);
      && AskAll(p, w.limiter, t.calls) == (w'.limiter, t.results)
      && Sent401(t.sent, key) == Admitted(t.calls, t.results, key) <= 1
  {
    var (w', t) := Act(p, w, a);
    if t.calls != [] {
      AskOne(p, w.limiter, t.calls[0]);
    }
    if a.Respond? && t.sent != [] {
      assert t.sent[0].status != 401;
    }
    assert t.sent != [] ==> t.sent[1..] == [];
  }

  /** In every interleaving, with either backend and whatever the clocks do, the 401 responses to a
      client correspond one to one with the tokens taken from its bucket, and the limiter sees
      exactly the calls of the trace. */
  lemma {:induction false} Sent401IsTokensTaken(p: Params, w: World, actions: seq<Action>, key: string)
    requires p.refill > 0.0
    ensures var (w', t) := ActAll(p, w, actions);
      && AskAll(p, w.limiter, t.calls) == (w'.limiter, t.results)
      && Sent401(t.sent, key) == Admitted(t.calls, t.results, key)
    decreases |actions|
  {
    if actions != [] {
      var (mid, first) := Act(p, w, actions[0]);
      var (last, rest) := ActAll(p, mid, actions[1..]);
      ActFaithful(p, w, actions[0], key);
      Sent401IsTokensTaken(p, mid, actions[1..], key);
      Sent401Concat(first.sent, rest.sent, key);
      AskAllConcat(p, w.limiter, first.calls, rest.calls);
      AdmittedConcat(first.calls, rest.calls, first.results, rest.results, key);
    }
  }

  // ---------------------------------------------------------------- one response per request

  /** How often request `id` arrives from `key`: arrivals under an id not in use. */
  function Arrivals(p: Params, w: World, actions: seq<Action>, id: nat, key: string): nat
    requires p.refill > 0.0
    decreases |actions|
  {
    if actions == [] then 0
    else Arrives(w, actions[0], id, key) + Arrivals(p, Act(p, w, actions[0]).0, actions[1..], id, key)
  }

  function Arrives(w: World, a: Action, id: nat, key: string): nat
  {
    if a.Arrive? && a.id == id && a.key == key && id !in w.phase then 1 else 0
  }

  function InFlight(w: World, id: nat, key: string): nat
  {
    if id in w.phase && w.phase[id].key == key then 1 else 0
  }

  function SentTo(sent: seq<Response>, id: nat, key: string): nat
  {
    if sent == [] then 0
    else (if sent[0].id == id && sent[0].key == key then 1 else 0) + SentTo(sent[1..], id, key)
  }

  lemma {:induction false} SentToConcat(a: seq<Response>, b: seq<Response>, id: nat, key: string)
    ensures SentTo(a + b, id, key) == SentTo(a, id, key) + SentTo(b, id, key)
  {
    if a == [] {
      assert a + b == b;
    } else {
      assert (a + b)[1..] == a[1..] + b;
      SentToConcat(a[1..], b, id, key);
    }
  }

  lemma {:induction false} ActAnswers(p: Params, w: World, a: Action, id: nat, key: string)
    requires p.refill > 0.0
    ensures InFlight(w, id, key) + Arrives(w, a, id, key)
         == InFlight(Act(p, w, a).0, id, key) + SentTo(Act(p, w, a).1.sent, id, key)
  {
    var sent := Act(p, w, a).1.sent;
    assert sent != [] ==> sent[1..] == [];
  }

  /** Every request gets exactly one response, for the client it came from: request by request,
      arrivals are the responses sent to it, plus one while it is in flight. */
  lemma {:induction false} OneResponseEach(p: Params, w: World, actions: seq<Action>, id: nat, key: string)
    requires p.refill > 0.0
    ensures InFlight(w, id, key) + Arrivals(p, w, actions, id, key)
         == InFlight(ActAll(p, w, actions).0, id, key) + SentTo(ActAll(p, w, actions).1.sent, id, key)
    decreases |actions|
  {
    if actions != [] {
      var (mid, first) := Act(p, w, actions[0]);
      ActAnswers(p, w, actions[0], id, key);
      OneResponseEach(p, mid, actions[1..], id, key);
      SentToConcat(first.sent, ActAll(p, mid, actions[1..]).1.sent, id, key);
    }
  }

  // ---------------------------------------------------------------- only charges consume

  /** The application's 401 responses to requests from `key`. */
  function App401(p: Params, w: World, actions: seq<Action>, key: string): nat
    requires p.refill > 0.0
    decreases |actions|
  {
    if actions == [] then 0
    else Rejects(w, actions[0], key) + App401(p, Act(p, w, actions[0]).0, actions[1..], key)
  }

  function Rejects(w: World, a: Action, key: string): nat
  {
    if a.Respond? && a.status == 401 && a.id in w.phase && w.phase[a.id] == Running(key) then 1 else 0
  }

  /** Requests from `key` that the application answered 401 and that are still to be charged. */
  function Waiting(phase: map<nat, Phase>, key: string): set<nat>
  {
    set id | id in phase && phase[id] == Charging(key)
  }

  lemma {:induction false} WaitingAfter(phase: map<nat, Phase>, id: nat, next: Phase, key: string)
    ensures Waiting(phase - {id}, key) == Waiting(phase, key) - {id}
    ensures Waiting(phase[id := next], key)
         == if next == Charging(key) then Waiting(phase, key) + {id} else Waiting(phase, key) - {id}
  {
  }

  /** Allow calls on `key`. */
  function Charged(calls: seq<Call>, key: string): nat
  {
    if calls == [] then 0
    else (if calls[0].consume && calls[0].key == key then 1 else 0) + Charged(calls[1..], key)
  }

  lemma {:induction false} ChargedConcat(a: seq<Call>, b: seq<Call>, key: string)
    ensures Charged(a + b, key) == Charged(a, key) + Charged(b, key)
  {
    if a == [] {
      assert a + b == b;
    } else {
      assert (a + b)[1..] == a[1..] + b;
      ChargedConcat(a[1..], b, key);
    }
  }

  lemma {:induction false} AdmittedAreCharged(calls: seq<Call>, results: seq<Result>, key: string)
    requires |calls| == |results|
    ensures Admitted(calls, results, key) <= Charged(calls, key)
  {
    if calls != [] {
      AdmittedAreCharged(calls[1..], results[1..], key);
    }
  }

  /** How a step moves requests and what it charges. */
  lemma {:induction false} ActMoves(p: Params, w: World, a: Action, key: string)
    requires p.refill > 0.0
    ensures var (w', t) := Act(p, w, a);
      && (Rejects(w, a, key) == 1 ==> w'.phase == w.phase[a.id := Charging(key)])
      && (Rejects(w, a, key) == 1 || !(a.Charge? && a.id in Waiting(w.phase, key)) ==> Charged(t.calls, key) == 0)
      && (a.Charge? && a.id in Waiting(w.phase, key) ==> w'.phase == w.phase - {a.id} && Charged(t.calls, key) == 1)
  {
    var t := Act(p, w, a).1;
    if t.calls != [] {
      ChargedOne(t.calls[0], key);
    }
  }

  /** All other steps leave the waiting requests of `key` as they are. */
  lemma {:induction false} ActLeavesWaiting(p: Params, w: World, a: Action, key: string)
    requires p.refill > 0.0 && Rejects(w, a, key) == 0 && !(a.Charge? && a.id in Waiting(w.phase, key))
    ensures Waiting(Act(p, w, a).0.phase, key) == Waiting(w.phase, key)
  {
    if a.Arrive? {
      WaitingAfter(w.phase, a.id, Running(a.key), key);
    } else if a.id in w.phase {
      WaitingAfter(w.phase, a.id, Charging(w.phase[a.id].key), key);
    }
  }

  lemma {:induction false} ActCharges(p: Params, w: World, a: Action, key: string)
    requires p.refill > 0.0
    ensures |Waiting(w.phase, key)| + Rejects(w, a, key)
         == |Waiting(Act(p, w, a).0.phase, key)| + Charged(Act(p, w, a).1.calls, key)
  {
    ActMoves(p, w, a, key);
    if Rejects(w, a, key) == 1 || (a.Charge? && a.id in Waiting(w.phase, key)) {
      WaitingAfter(w.phase, a.id, Charging(key), key);
    } else {
      ActLeavesWaiting(p, w, a, key);
    }
  }

  lemma {:induction false} ChargedOne(c: Call, key: string)
    ensures Charged([c], key) == if c.consume && c.key == key then 1 else 0
  {
    assert [c][1..] == [];
  }

  /** In every interleaving the charges of a client are its 401 responses from the application, less
      those still waiting; and tokens are only taken by charges. */
  lemma {:induction false} OnlyChargesConsume(p: Params, w: World, actions: seq<Action>, key: string)
    requires p.refill > 0.0
    ensures var (w', t) := ActAll(p, w, actions);
      && |t.calls| == |t.results|
      && |Waiting(w.phase, key)| + App401(p, w, actions, key) == |Waiting(w'.phase, key)| + Charged(t.calls, key)
      && Admitted(t.calls, t.results, key) <= Charged(t.calls, key)
    decreases |actions|
  {
    Sent401IsTokensTaken(p, w, actions, key);
    AdmittedAreCharged(ActAll(p, w, actions).1.calls, ActAll(p, w, actions).1.results, key);
    if actions != [] {
      var (mid, first) := Act(p, w, actions[0]);
      ActCharges(p, w, actions[0], key);
      OnlyChargesConsume(p, mid, actions[1..], key);
      ChargedConcat(first.calls, ActAll(p, mid, actions[1..]).1.calls, key);
    }
  }

  lemma {:induction false} UnchargedBucket(p: Params, st: State, calls: seq<Call>, key: string)
    requires p.refill > 0.0 && Charged(calls, key) == 0
    ensures (key in Run(p, st, calls).0) == (key in st) && (key in st ==> Run(p, st, calls).0[key] == st[key])
    decreases |calls|
  {
    if calls != [] {
      UnchargedBucket(p, Step(p, st, calls[0]).0, calls[1..], key);
    }
  }

  // ---------------------------------------------------------------- both backends track the abstract bucket

  /** The backend answers like the abstract buckets `st`, none of which lies after `clock`. */
  ghost predicate Tracks(p: Params, l: Limiter, st: State, clock: real)
  {
    && WellFormed(p) && Stamped(st, clock)
    && match l
       case Memory(buckets) => Refines(p, buckets, st, clock)
       case Redis(store) => Usable(p) && Mirrors(p, store, st)
  }

  /** The shared store and the caller read the same clock; the memory backend has only one. */
  ghost predicate SameClock(l: Limiter, a: Action)
  {
    l.Redis? && !a.Respond? ==> a.server == a.now
  }

  ghost predicate OnOneClock(l: Limiter, actions: seq<Action>)
  {
    forall i | 0 <= i < |actions| :: SameClock(l, actions[i])
  }

  lemma {:induction false} AskAllIsRun(p: Params, l: Limiter, calls: seq<Call>)
    requires p.refill > 0.0
    ensures match l
      case Memory(buckets) => AskAll(p, l, calls) == (Memory(MemRun(p, buckets, calls).0), MemRun(p, buckets, calls).1)
      case Redis(store) => AskAll(p, l, calls) == (Redis(RedisRun(p, store, calls).0), RedisRun(p, store, calls).1)
    decreases |calls|
  {
    if calls != [] {
      AskAllIsRun(p, Ask(p, l, calls[0]).0, calls[1..]);
    }
  }

  lemma {:induction false} SameIsSameAnswers(rs: seq<Result>)
    ensures SameAnswers(rs, rs)
  {
  }

  lemma {:induction false} RunTracks(p: Params, l: Limiter, st: State, calls: seq<Call>, clock: real)
    requires Tracks(p, l, st, clock) && Monotone(calls, clock) && (l.Redis? ==> OneClock(calls))
    ensures Tracks(p, AskAll(p, l, calls).0, Run(p, st, calls).0, ClockAfter(calls, clock))
    ensures SameAnswers(AskAll(p, l, calls).1, Run(p, st, calls).1)
  {
    AskAllIsRun(p, l, calls);
    RunStamped(p, st, calls, clock);
    match l
    case Memory(buckets) => RunRefines(p, buckets, st, calls, clock);
    case Redis(store) =>
      ExpiryUnobservable(p, store, st, calls);
      SameIsSameAnswers(Run(p, st, calls).1);
  }

  lemma {:induction false} TracksLater(p: Params, l: Limiter, st: State, clock: real, later: real)
    requires Tracks(p, l, st, clock) && clock <= later
    ensures Tracks(p, l, st, later)
  {
  }

  /** Clock readings of the actions never go back and stay within [from, to]. */
  predicate Clocked(actions: seq<Action>, from: real, to: real)
  {
    if actions == [] then from <= to
    else if actions[0].Respond? then Clocked(actions[1..], from, to)
    else from <= actions[0].now && Clocked(actions[1..], actions[0].now, to)
  }

  lemma {:induction false} CallsWithin(p: Params, w: World, actions: seq<Action>, from: real, to: real)
    requires p.refill > 0.0 && Clocked(actions, from, to)
    ensures Within(ActAll(p, w, actions).1.calls, from, to)
    decreases |actions|
  {
    if actions != [] {
      var a := actions[0];
      var next := if a.Respond? then from else a.now;
      CallsWithin(p, Act(p, w, a).0, actions[1..], next, to);
      CallFirst(Act(p, w, a).1.calls, ActAll(p, Act(p, w, a).0, actions[1..]).1.calls, from, next, to);
    }
  }

  lemma {:induction false} CallFirst(first: seq<Call>, rest: seq<Call>, from: real, next: real, to: real)
    requires from <= next && Within(rest, next, to)
    requires first == [] || (|first| == 1 && first[0].now == next)
    ensures Within(first + rest, from, to)
  {
    if first == [] {
      assert first + rest == rest;
    } else {
      assert (first + rest)[1..] == rest;
    }
  }

  lemma {:induction false} CallsOnOneClock(p: Params, w: World, actions: seq<Action>)
    requires p.refill > 0.0 && OnOneClock(w.limiter, actions)
    ensures w.limiter.Redis? ==> OneClock(ActAll(p, w, actions).1.calls)
    decreases |actions|
  {
    if actions != [] {
      assert SameClock(w.limiter, actions[0]);
      CallsOnOneClock(p, Act(p, w, actions[0]).0, actions[1..]);
    }
  }

  /** Any interleaving keeps the backend in step with the abstract buckets. */
  lemma {:induction false} ActAllTracks(p: Params, w: World, st: State, actions: seq<Action>, from: real, to: real)
    requires Tracks(p, w.limiter, st, from) && Clocked(actions, from, to) && OnOneClock(w.limiter, actions)
    ensures var (w', t) := ActAll(p, w, actions);
      && Within(t.calls, from, to) && w'.limiter.Redis? == w.limiter.Redis?
      && Tracks(p, w'.limiter, Run(p, st, t.calls).0, to)
      && SameAnswers(t.results, Run(p, st, t.calls).1)
  {
    var (w', t) := ActAll(p, w, actions);
    Sent401IsTokensTaken(p, w, actions, "");
    CallsWithin(p, w, actions, from, to);
    CallsOnOneClock(p, w, actions);
    RunTracks(p, w.limiter, st, t.calls, from);
    TracksLater(p, w'.limiter, Run(p, st, t.calls).0, ClockAfter(t.calls, from), to);
  }

  /** An idle middleware with an empty backend of either kind. */
  ghost predicate Idle(p: Params, w: World)
  {
    WellFormed(p) && w.phase == map[] && (w.limiter == Memory(map[]) || (w.limiter == Redis(map[]) && Usable(p)))
  }

  /** Between any two points of any interleaving, a client gets at most capacity plus refill times
      the elapsed time of 401 responses. */
  lemma {:induction false} Sent401WindowBound(p: Params, idle: World, before: seq<Action>, window: seq<Action>,
                                              key: string,
                                              start: real, from: real, to: real)
    requires Idle(p, idle) && Clocked(before, start, from) && Clocked(window, from, to)
    requires OnOneClock(idle.limiter, before) && OnOneClock(idle.limiter, window)
    ensures Sent401(ActAll(p, ActAll(p, idle, before).0, window).1.sent, key) as real
         <= p.capacity + (to - from) * p.refill
  {
    var w, st := ActAll(p, idle, before).0, Run(p, map[], ActAll(p, idle, before).1.calls).0;
    var t := ActAll(p, w, window).1;
    ActAllTracks(p, idle, map[], before, start, from);
    ActAllTracks(p, w, st, window, from, to);
    Sent401IsTokensTaken(p, w, window, key);
    SameAdmissions(t.calls, t.results, Run(p, st, t.calls).1, key);
    MonotoneWindowBound(p, st, t.calls, key, from, to);
  }

  /** Traffic that the application does not answer 401 takes nothing from the client's bucket, in
      every interleaving. */
  lemma {:induction false} OtherTrafficIsFree(p: Params, w: World, st: State, actions: seq<Action>, key: string,
                                              from: real, to: real)
    requires Tracks(p, w.limiter, st, from) && Clocked(actions, from, to) && OnOneClock(w.limiter, actions)
    requires Waiting(w.phase, key) == {} && App401(p, w, actions, key) == 0
    ensures Sent401(ActAll(p, w, actions).1.sent, key) == 0
    ensures var st' := Run(p, st, ActAll(p, w, actions).1.calls).0;
      && Tracks(p, ActAll(p, w, actions).0.limiter, st', to)
      && (key in st' <==> key in st) && (key in st ==> st'[key] == st[key])
  {
    OnlyChargesConsume(p, w, actions, key);
    Sent401IsTokensTaken(p, w, actions, key);
    ActAllTracks(p, w, st, actions, from, to);
    UnchargedBucket(p, st, ActAll(p, w, actions).1.calls, key);
  }

  // ---------------------------------------------------------------- the gate

  lemma {:induction false} AskTracks(p: Params, l: Limiter, st: State, c: Call, clock: real)
    requires Tracks(p, l, st, clock) && clock <= c.now && (l.Redis? ==> c.server == c.now)
    ensures Tracks(p, Ask(p, l, c).0, Step(p, st, c).0, c.now)
    ensures SameAnswer(Ask(p, l, c).1, Step(p, st, c).1)
  {
    match l
    case Memory(buckets) =>
      StepRefines(p, buckets, st, c, clock);
      StepSameAnswer(p, buckets, st, c, clock);
    case Redis(store) => StepMirrors(p, store, st, c);
  }

  /** The request goes in to the application and nothing is sent yet. */
  ghost predicate LetIn(w: World, a: Action, w': World, t: Trace)
    requires a.Arrive?
  {
    w'.phase == w.phase[a.id := Running(a.key)] && t.sent == []
  }

  /** The request is answered 429 at once and never goes in. */
  ghost predicate TurnedAway(w: World, a: Action, w': World, t: Trace)
  {
    w'.phase == w.phase && |t.sent| == 1 && t.sent[0].Throttled? && t.sent[0].id == a.id && a.Arrive?
    && t.sent[0].key == a.key
  }

  /** In every interleaving an arrival is turned away exactly when one more 401 to that client would
      break its window bound, that is, when its bucket holds less than a token; otherwise it is let in. */
  lemma {:induction false} ArrivalGate(p: Params, idle: World, before: seq<Action>, a: Action, start: real,
                                       w: World, t: Trace)
    requires Idle(p, idle) && a.Arrive? && Clocked(before, start, a.now)
    requires OnOneClock(idle.limiter, before) && SameClock(idle.limiter, a)
    requires (w, t) == ActAll(p, idle, before) && |t.calls| == |t.results| && a.id !in w.phase
    ensures var preview := Call(false, a.key, a.now, a.server);
      && (WindowFull(p, t.calls, t.results, preview) <==> Current(p, Run(p, map[], t.calls).0, a.key, a.now) < 1.0)
      && if WindowFull(p, t.calls, t.results, preview) then TurnedAway(w, a, Act(p, w, a).0, Act(p, w, a).1)
         else LetIn(w, a, Act(p, w, a).0, Act(p, w, a).1)
  {
    var preview, st := Call(false, a.key, a.now, a.server), Run(p, map[], t.calls).0;
    ActAllTracks(p, idle, map[], before, start, a.now);
    AskTracks(p, w.limiter, st, preview, a.now);
    SameWindows(p, t.calls, t.results, Run(p, map[], t.calls).1, preview);
    DeniedIffWindowFull(p, t.calls, preview);
  }

  /** Requests from `key` that are let in. */
  function Entered(p: Params, w: World, actions: seq<Action>, key: string): nat
    requires p.refill > 0.0
    decreases |actions|
  {
    if actions == [] then 0
    else
      var a, next := actions[0], Act(p, w, actions[0]).0;
      (if a.Arrive? && a.key == key && a.id !in w.phase && a.id in next.phase then 1 else 0)
      + Entered(p, next, actions[1..], key)
  }

  /** The abstract buckets after one step. */
  ghost function Followed(p: Params, w: World, st: State, a: Action): State
    requires p.refill > 0.0
  {
    var calls := Act(p, w, a).1.calls;
    if calls == [] then st else Step(p, st, calls[0]).0
  }

  lemma {:induction false} ActTracks(p: Params, w: World, st: State, a: Action, from: real)
    requires Tracks(p, w.limiter, st, from) && SameClock(w.limiter, a) && (!a.Respond? ==> from <= a.now)
    ensures var t := Act(p, w, a).1;
      && Tracks(p, Act(p, w, a).0.limiter, Followed(p, w, st, a), if a.Respond? then from else a.now)
      && (t.calls != [] ==> !a.Respond? && t.calls[0].now == a.now && |t.results| == 1
                            && SameAnswer(t.results[0], Step(p, st, t.calls[0]).1))
  {
    var t := Act(p, w, a).1;
    if t.calls != [] {
      AskTracks(p, w.limiter, st, t.calls[0], from);
    } else if !a.Respond? {
      TracksLater(p, w.limiter, st, from, a.now);
    }
  }

  lemma {:induction false} LevelGrows(p: Params, b: Bucket, now: real, later: real)
    requires p.refill > 0.0 && b.ts <= now <= later
    ensures Level(p, b, now) <= Level(p, b, later)
  {
    GainNonNegative(p, b.ts, now);
    GainNonNegative(p, b.ts, later);
    MulMono(now - b.ts, later - b.ts, p.refill);
  }

  /** A bucket that will not hold a token by `later` denies every call until then, and stays so. */
  lemma {:induction false} StaysEmpty(p: Params, st: State, c: Call, key: string, later: real)
    requires WellFormed(p) && Stamped(st, c.now) && c.now <= later
    requires key in st && Current(p, st, key, later) < 1.0
    ensures c.key == key ==> !Step(p, st, c).1.allowed
    ensures key in Step(p, st, c).0 && Current(p, Step(p, st, c).0, key, later) < 1.0
  {
    if c.key == key {
      LevelGrows(p, st[key], c.now, later);
      RefillTwice(p, st[key], c.now, later);
    }
  }

  lemma {:induction false} ActWhileEmpty(p: Params, w: World, st: State, a: Action, key: string, from: real, to: real)
    requires Tracks(p, w.limiter, st, from) && SameClock(w.limiter, a) && (!a.Respond? ==> from <= a.now <= to)
    requires key in st && Current(p, st, key, to) < 1.0
    ensures key in Followed(p, w, st, a) && Current(p, Followed(p, w, st, a), key, to) < 1.0
    ensures a.Arrive? && a.key == key && a.id !in w.phase ==> a.id !in Act(p, w, a).0.phase
    ensures Sent401(Act(p, w, a).1.sent, key) == 0
  {
    ActTracks(p, w, st, a, from);
    ActFaithful(p, w, a, key);
    var calls := Act(p, w, a).1.calls;
    if calls != [] {
      StaysEmpty(p, st, calls[0], key, to);
    }
  }

  lemma {:induction false} EmptyBucketBlocks(p: Params, w: World, st: State, actions: seq<Action>, key: string,
                                             from: real, to: real)
    requires Tracks(p, w.limiter, st, from) && Clocked(actions, from, to) && OnOneClock(w.limiter, actions)
    requires key in st && Current(p, st, key, to) < 1.0
    ensures Entered(p, w, actions, key) == 0 && Sent401(ActAll(p, w, actions).1.sent, key) == 0
    decreases |actions|
  {
    if actions != [] {
      var a, next := actions[0], Act(p, w, actions[0]).0;
      var clock := if a.Respond? then from else a.now;
      assert SameClock(w.limiter, a);
      ClockedTo(actions, from, to);
      ActTracks(p, w, st, a, from);
      ActWhileEmpty(p, w, st, a, key, from, to);
      EmptyBucketBlocks(p, next, Followed(p, w, st, a), actions[1..], key, clock, to);
      Sent401Concat(Act(p, w, a).1.sent, ActAll(p, next, actions[1..]).1.sent, key);
    }
  }

  lemma {:induction false} ClockedTo(actions: seq<Action>, from: real, to: real)
    requires Clocked(actions, from, to)
    ensures from <= to && (actions != [] && !actions[0].Respond? ==> actions[0].now <= to)
  {
    if actions != [] {
      ClockedTo(actions[1..], if actions[0].Respond? then from else actions[0].now, to);
    }
  }

  /** From the moment a client's bucket holds less than a token, none of its requests reaches the
      application, and no 401 is sent to it, before the exact wait is over. */
  lemma {:induction false} NoEntryBeforeTheWait(p: Params, idle: World, before: seq<Action>, between: seq<Action>,
                                                key: string, start: real, from: real, to: real, level: real)
    requires Idle(p, idle) && Clocked(before, start, from) && Clocked(between, from, to)
    requires OnOneClock(idle.limiter, before) && OnOneClock(idle.limiter, between)
    requires level == Current(p, Run(p, map[], ActAll(p, idle, before).1.calls).0, key, from) < 1.0
    requires to < from + (1.0 - level) / p.refill
    ensures Entered(p, ActAll(p, idle, before).0, between, key) == 0
    ensures Sent401(ActAll(p, ActAll(p, idle, before).0, between).1.sent, key) == 0
  {
    var w, st := ActAll(p, idle, before).0, Run(p, map[], ActAll(p, idle, before).1.calls).0;
    ActAllTracks(p, idle, map[], before, start, from);
    ClockedTo(between, from, to);
    RefillTwice(p, st[key], from, to);
    WaitIsExact(p, Bucket(level, from), to);
    EmptyBucketBlocks(p, w, st, between, key, from, to);
  }

  // ---------------------------------------------------------------- responses pass through

  /** How often the application answers request `id` from `key` with `status`. */
  function Answers(p: Params, w: World, actions: seq<Action>, id: nat, key: string, status: int): nat
    requires p.refill > 0.0
    decreases |actions|
  {
    if actions == [] then 0
    else
      (if actions[0] == Respond(id, status) && id in w.phase && w.phase[id] == Running(key) then 1 else 0)
      + Answers(p, Act(p, w, actions[0]).0, actions[1..], id, key, status)
  }

  function PassedOn(sent: seq<Response>, response: Response): nat
  {
    if sent == [] then 0 else (if sent[0] == response then 1 else 0) + PassedOn(sent[1..], response)
  }

  lemma {:induction false} PassedOnConcat(a: seq<Response>, b: seq<Response>, response: Response)
    ensures PassedOn(a + b, response) == PassedOn(a, response) + PassedOn(b, response)
  {
    if a == [] {
      assert a + b == b;
    } else {
      assert (a + b)[1..] == a[1..] + b;
      PassedOnConcat(a[1..], b, response);
    }
  }

  lemma {:induction false} ActPasses(p: Params, w: World, a: Action, id: nat, key: string, status: int)
    requires p.refill > 0.0 && status != 401
    ensures PassedOn(Act(p, w, a).1.sent, Passed(id, key, status))
         == if a == Respond(id, status) && id in w.phase && w.phase[id] == Running(key) then 1 else 0
  {
    var sent := Act(p, w, a).1.sent;
    assert sent != [] ==> sent[1..] == [];
  }

  /** Responses other than 401 reach the client unchanged: in every interleaving exactly those the
      application gave to that request. */
  lemma {:induction false} OtherResponsesPass(p: Params, w: World, actions: seq<Action>, id: nat, key: string,
                                              status: int)
    requires p.refill > 0.0 && status != 401
    ensures PassedOn(ActAll(p, w, actions).1.sent, Passed(id, key, status)) == Answers(p, w, actions, id, key, status)
    decreases |actions|
  {
    if actions != [] {
      var (mid, first) := Act(p, w, actions[0]);
      ActPasses(p, w, actions[0], id, key, status);
      OtherResponsesPass(p, mid, actions[1..], id, key, status);
      PassedOnConcat(first.sent, ActAll(p, mid, actions[1..]).1.sent, Passed(id, key, status));
    }
  }

  // ---------------------------------------------------------------- retry advice

  /** A 429 comes from a denied call made at that step, and advertises its wait. */
  lemma {:induction false} ThrottledIsDenied(p: Params, w: World, st: State, a: Action, key: string, wait: int)
    requires !a.Respond? && Tracks(p, w.limiter, st, a.now) && SameClock(w.limiter, a)
    requires Act(p, w, a).1.sent == [Throttled(a.id, key, wait)]
    ensures var c := Call(a.Charge?, key, a.now, a.server);
      && !Step(p, st, c).1.allowed && Step(p, st, c).1.retryAfter <= wait as real
      && wait as real < Max(Step(p, st, c).1.retryAfter + 1.0, 2.0)
      && Tracks(p, Act(p, w, a).0.limiter, Step(p, st, c).0, a.now)
  {
    var c := Call(a.Charge?, key, a.now, a.server);
    AskTracks(p, w.limiter, st, c, a.now);
    HeaderCoversWait(Step(p, st, c).1);
  }

  /** The Retry-After of a 429 is the exact wait rounded up to whole seconds, and at least one. */
  lemma {:induction false} RetryAfterIsTight(p: Params, idle: World, before: seq<Action>, a: Action, key: string,
                                             start: real, wait: int, w: World, st: State, exact: real)
    requires Idle(p, idle) && !a.Respond? && Clocked(before, start, a.now)
    requires OnOneClock(idle.limiter, before) && SameClock(idle.limiter, a)
    requires w == ActAll(p, idle, before).0 && st == Run(p, map[], ActAll(p, idle, before).1.calls).0
    requires Act(p, w, a).1.sent == [Throttled(a.id, key, wait)]
    requires exact == (1.0 - Current(p, st, key, a.now)) / p.refill
    ensures exact <= wait as real < Max(exact + 1.0, 2.0)
  {
    ActAllTracks(p, idle, map[], before, start, a.now);
    ThrottledIsDenied(p, w, st, a, key, wait);
  }

  /** A client that was sent a 429, on arrival or on being charged, and waits out its Retry-After
      is let through to the application, if no 401 went to it meanwhile. */
  lemma {:induction false} RetryAfterIsSound(p: Params, idle: World, before: seq<Action>, a: Action,
                                             between: seq<Action>,
                                             retry: Action, start: real, wait: int,
                                             w: World, after: World, later: World)
    requires Idle(p, idle) && !a.Respond? && retry.Arrive?
    requires Clocked(before, start, a.now) && Clocked(between, a.now, retry.now)
    requires OnOneClock(idle.limiter, before) && SameClock(idle.limiter, a)
    requires OnOneClock(idle.limiter, between) && SameClock(idle.limiter, retry)
    requires w == ActAll(p, idle, before).0
    requires after == Act(p, w, a).0 && Act(p, w, a).1.sent == [Throttled(a.id, retry.key, wait)]
    requires later == ActAll(p, after, between).0 && Sent401(ActAll(p, after, between).1.sent, retry.key) == 0
    requires retry.id !in later.phase && retry.now >= a.now + wait as real
    ensures var w' := Act(p, later, retry).0; retry.id in w'.phase && w'.phase[retry.id] == Running(retry.key)
  {
    var st := Run(p, map[], ActAll(p, idle, before).1.calls).0;
    var c := Call(a.Charge?, retry.key, a.now, a.server);
    ActAllTracks(p, idle, map[], before, start, a.now);
    ThrottledIsDenied(p, w, st, a, retry.key, wait);
    RetryAllowed(p, after, st, c, between, Call(false, retry.key, retry.now, retry.server));
  }

  /** The retry, after a denied call `c` on abstract buckets `st`. */
  lemma {:induction false} RetryAllowed(p: Params, w: World, st: State, c: Call, between: seq<Action>, again: Call)
    requires WellFormed(p) && !Step(p, st, c).1.allowed && Stamped(st, c.now) && again.key == c.key
    requires Tracks(p, w.limiter, Step(p, st, c).0, c.now)
    requires Clocked(between, c.now, again.now) && OnOneClock(w.limiter, between)
    requires w.limiter.Redis? ==> again.server == again.now
    requires Sent401(ActAll(p, w, between).1.sent, c.key) == 0
    requires again.now >= c.now + Step(p, st, c).1.retryAfter
    ensures Ask(p, ActAll(p, w, between).0.limiter, again).1.allowed
  {
    var denied := Step(p, st, c).0;
    var t := ActAll(p, w, between).1;
    ActAllTracks(p, w, denied, between, c.now, again.now);
    Sent401IsTokensTaken(p, w, between, c.key);
    SameAdmissions(t.calls, t.results, Run(p, denied, t.calls).1, c.key);
    MonotoneSnoc(t.calls, again, c.now);
    RetryAdviceExact(p, st, c, t.calls, again);
    AskTracks(p, ActAll(p, w, between).0.limiter, Run(p, denied, t.calls).0, again, again.now);
  }

  lemma {:induction false} MonotoneSnoc(calls: seq<Call>, c: Call, clock: real)
    requires Within(calls, clock, c.now)
    ensures Monotone(calls + [c], clock)
    decreases |calls|
  {
    if calls == [] {
      assert [c][1..] == [];
    } else {
      assert (calls + [c])[1..] == calls[1..] + [c];
      MonotoneBounds(calls, clock, 0);
      MonotoneSnoc(calls[1..], c, calls[0].now);
    }
  }
}
