/** The life of streamed chat completions (`app/routers/chat.py`, with the deferred finalizer of
    `app/observability.py`), as steps of any number of interleaved requests sharing one limiter. */
module StreamLifecycle {
  import opened StreamLimiter
  import opened Wrappers

  datatype Usage = Usage(promptTokens: nat, completionTokens: nat, totalTokens: nat)

  datatype Chunk = Chunk(body: string, usage: Option<Usage>)

  type ErrorStatus = s: int | 400 <= s <= 599 witness 500

  /** How one wait on the upstream ends. */
  datatype Event = Next(chunk: Chunk) | Stop | Timeout | ApiFailure(status: ErrorStatus) | Crash

  /** What the client receives: a chunk, `[DONE]`, the timeout event, or an error payload. */
  datatype Frame = Data(chunk: Chunk) | Done | TimedOut | ApiError(status: ErrorStatus) | InternalError

  datatype Audit = Audit(status: int, usage: Option<Usage>)

  /** `First`: the handler waits for the first chunk. `Body`: the generator is in its loop.
      `Draining`: its terminal frame is out, its cleanup still to run. `Answered`: the response
      needs no lease any more. `Closed`: the body has ended and the request is finalized. */
  datatype Stage = First | Body | Draining | Answered | Closed

  datatype Request = Request(
    key: string,
    lease: Option<nat>,
    stage: Stage,
    aborted: bool,
    chunks: seq<Chunk>,
    frames: seq<Frame>,
    usage: Option<Usage>,        // the generator's local `token_usage`
    recorded: Option<Usage>,     // request.state.token_usage
    auditStatus: Option<int>,    // request.state.audit_status_code
    responseStatus: int,
    ending: Option<Event>,       // history: the wait that ended the stream
    returned: nat,               // history: releases that gave the slot back
    audits: seq<Audit>)

  datatype World = World(registry: Registry, requests: seq<Request>)

  datatype Action = Open(key: string) | Deliver(id: nat, event: Event) | Abort(id: nat) | Close(id: nat)

  // ---------------------------------------------------------------- reference answers

  function DataFrames(chunks: seq<Chunk>): (fs: seq<Frame>)
    ensures |fs| == |chunks| && forall i | 0 <= i < |chunks| :: fs[i] == Data(chunks[i])
  {
    seq(|chunks|, i requires 0 <= i < |chunks| => Data(chunks[i]))
  }

  /** The usage carried by the last chunk that carries one. */
  function LastUsage(chunks: seq<Chunk>): Option<Usage>
  {
    if chunks == [] then None
    else if chunks[|chunks| - 1].usage.Some? then chunks[|chunks| - 1].usage
    else LastUsage(chunks[..|chunks| - 1])
  }

  function Terminal(e: Event): Frame
    requires !e.Next?
  {
    match e
    case Stop => Done
    case Timeout => TimedOut
    case ApiFailure(status) => ApiError(status)
    case Crash => InternalError
  }

  /** The status and usage a terminal frame must be audited with. */
  function Verdict(terminal: Frame, chunks: seq<Chunk>): Audit
    requires !terminal.Data?
  {
    match terminal
    case Done => Audit(200, LastUsage(chunks))
    case TimedOut => Audit(504, None)
    case ApiError(status) => Audit(status, None)
    case InternalError => Audit(500, None)
  }

  function Overriding(e: Event): Option<int>
    requires !e.Next?
  {
    match e
    case Stop => None
    case Timeout => Some(504)
    case ApiFailure(status) => Some(status)
    case Crash => Some(500)
  }

  // ---------------------------------------------------------------- the steps

  /** `finalize`, guarded so that it acts once. */
  function Finalize(r: Request): Request
  {
    if r.audits != [] then r
    else r.(audits := [Audit(if r.auditStatus.Some? then r.auditStatus.value else r.responseStatus, r.recorded)])
  }

  /** `lease.release()`, counting releases that return the slot. */
  function ReleaseOf(max: nat, registry: Registry, r: Request): (Registry, Request)
  {
    if r.lease.None? || r.lease.value >= |registry.leases| then (registry, r)
    else
      var (next, outcome) := DoRelease(max, registry, r.lease.value);
      (next, if outcome == Returned then r.(returned := r.returned + 1) else r)
  }

  function Emit(r: Request, c: Chunk): Request
  {
    r.(chunks := r.chunks + [c], frames := r.frames + [Data(c)], usage := if c.usage.Some? then c.usage else r.usage)
  }

  function NewRequest(key: string, lease: Option<nat>, stage: Stage, status: int): Request
  {
    Request(key, lease, stage, false, [], [], None, None, None, status, None, 0, [])
  }

  function StepRequest(max: nat, registry: Registry, r: Request, a: Action): (Registry, Request)
    requires !a.Open?
  {
    match (a, r.stage)
    case (Deliver(_, Next(c)), First) => (registry, Emit(r.(stage := Body), c))
    case (Deliver(_, Stop), First) => (registry, r.(stage := Body))
    case (Deliver(_, Timeout), First) =>
      var (next, r') := ReleaseOf(max, registry, r);
      (next, r'.(stage := Answered, responseStatus := 504, auditStatus := Some(504), frames := r.frames + [TimedOut],
                 ending := Some(Timeout)))
    case (Deliver(_, ApiFailure(status)), First) =>
      var (next, r') := ReleaseOf(max, registry, r);
      (next, r'.(stage := Answered, responseStatus := status, ending := Some(ApiFailure(status))))
    case (Deliver(_, Crash), First) =>
      var (next, r') := ReleaseOf(max, registry, r);
      (next, r'.(stage := Answered, responseStatus := 500, ending := Some(Crash)))
    case (Deliver(_, Next(c)), Body) => (registry, Emit(r, c))
    case (Deliver(_, e), Body) =>
      (registry, r.(stage := Draining, frames := r.frames + [Terminal(e)], ending := Some(e),
                    auditStatus := Overriding(e), recorded := if e.Stop? then r.usage else r.recorded))
    case (Abort(_), Body) =>
      var (next, r') := ReleaseOf(max, registry, r);
      (next, Finalize(r'.(stage := Closed, aborted := true)))
    case (Close(_), Draining) =>
      var (next, r') := ReleaseOf(max, registry, r);
      (next, Finalize(r'.(stage := Closed)))
    case (Close(_), Answered) => (registry, Finalize(r.(stage := Closed)))
    case (Close(_), Closed) => (registry, Finalize(r))
    case _ => (registry, r)
  }

  function Step(max: nat, w: World, a: Action): World
  {
    match a
    case Open(key) =>
      var (next, granted) := DoAcquire(max, w.registry, key);
      var r := if granted then NewRequest(key, Some(|w.registry.leases|), First, 200)
               else NewRequest(key, None, Answered, 429);
      World(next, w.requests + [r])
    case _ =>
      if a.id >= |w.requests| then w
      else
        var (next, r) := StepRequest(max, w.registry, w.requests[a.id], a);
        World(next, w.requests[a.id := r])
  }

  function Run(max: nat, w: World, actions: seq<Action>): World
    decreases |actions|
  {
    if actions == [] then w else Run(max, Step(max, w, actions[0]), actions[1..])
  }

  // ---------------------------------------------------------------- what one request keeps

  /** What finalizing the request now would audit. */
  ghost function Pending(r: Request): Audit
  {
    Audit(if r.auditStatus.Some? then r.auditStatus.value else r.responseStatus, r.recorded)
  }

  ghost predicate InBody(r: Request)
  {
    r.frames == DataFrames(r.chunks) && r.usage == LastUsage(r.chunks) && r.ending == None
    && r.recorded == None && r.auditStatus == None && r.responseStatus == 200
  }

  /** The stream ended: chunks in order, then the one frame of the wait that ended it, and an
      audit that matches. */
  ghost predicate StreamEnded(r: Request)
  {
    && r.ending.Some? && !r.ending.value.Next? && r.responseStatus == 200
    && r.frames == DataFrames(r.chunks) + [Terminal(r.ending.value)]
    && Pending(r) == Verdict(Terminal(r.ending.value), r.chunks)
  }

  /** An answer that never became a stream: refused by the limiter, or failed while waiting for the
      first chunk. Only a timeout there still sends a frame. */
  ghost predicate AnsweredEarly(r: Request)
  {
    && r.chunks == [] && r.responseStatus != 200
    && if r.lease.None? then r.frames == [] && Pending(r) == Audit(429, None)
       else
         && r.ending.Some? && (r.ending.value.Timeout? || r.ending.value.ApiFailure? || r.ending.value.Crash?)
         && r.frames == (if r.ending.value.Timeout? then [TimedOut] else [])
         && Pending(r) == Verdict(Terminal(r.ending.value), [])
  }

  ghost predicate RequestInv(r: Request)
  {
    && (r.stage.First? ==> InBody(r) && r.chunks == [])
    && (r.stage.Body? ==> InBody(r))
    && (r.stage.Draining? ==> StreamEnded(r))
    && (r.stage.Answered? ==> AnsweredEarly(r))
    && (r.stage.Closed? ==> if r.aborted then InBody(r) else AnsweredEarly(r) || StreamEnded(r))
    && (r.aborted ==> r.stage.Closed?)
    && (r.lease.None? ==> AnsweredEarly(r) && (r.stage.Answered? || r.stage.Closed?))
    && r.returned == (if r.lease.Some? && (r.stage.Answered? || r.stage.Closed?) then 1 else 0)
    && r.audits == if r.stage.Closed? then [Pending(r)] else []
  }

  /** The lease of a request is live exactly until the request lets go of it. */
  ghost predicate HoldsItsLease(registry: Registry, r: Request)
  {
    r.lease.Some? ==>
      && r.lease.value < |registry.leases|
      && registry.leases[r.lease.value] == Lease(r.key, r.stage.Answered? || r.stage.Closed?)
  }

  ghost predicate Owned(requests: seq<Request>, lease: nat)
  {
    exists i | 0 <= i < |requests| :: requests[i].lease == Some(lease)
  }

  ghost predicate LeasesDistinct(requests: seq<Request>)
  {
    forall i, j | 0 <= i < j < |requests| && requests[i].lease.Some? :: requests[i].lease != requests[j].lease
  }

  /** Every request is in order and every lease belongs to exactly one request. */
  ghost predicate RequestsInv(registry: Registry, requests: seq<Request>)
  {
    && (forall i | 0 <= i < |requests| :: RequestInv(requests[i]) && HoldsItsLease(registry, requests[i]))
    && LeasesDistinct(requests)
    && (forall l: nat | l < |registry.leases| :: Owned(requests, l))
  }

  ghost predicate WorldInv(max: nat, w: World)
  {
    Consistent(max, w.registry) && RequestsInv(w.registry, w.requests)
  }

  lemma {:induction false} EmitKeepsBody(r: Request, c: Chunk)
    requires InBody(r)
    ensures InBody(Emit(r, c))
  {
    assert (r.chunks + [c])[..|r.chunks|] == r.chunks;
  }

  lemma {:induction false} TerminalEnds(r: Request, e: Event)
    requires InBody(r) && !e.Next?
    ensures StreamEnded(r.(stage := Draining, frames := r.frames + [Terminal(e)], ending := Some(e),
                           auditStatus := Overriding(e), recorded := if e.Stop? then r.usage else r.recorded))
  {
  }

  /** Releasing a held lease returns the slot and touches no other lease. */
  lemma {:induction false} ReleaseReturns(max: nat, registry: Registry, r: Request)
    requires max >= 1 && Consistent(max, registry) && r.lease.Some? && HoldsItsLease(registry, r)
    requires !(r.stage.Answered? || r.stage.Closed?)
    ensures var (next, r') := ReleaseOf(max, registry, r);
      && Consistent(max, next)
      && r' == r.(returned := r.returned + 1)
      && next.leases == registry.leases[r.lease.value := Lease(r.key, true)]
  {
    ReleaseConsistent(max, registry, r.lease.value);
  }

  /** What a step of one request does to the leases: nothing, or the release of its own. */
  ghost predicate OwnLeaseOnly(before: Registry, after: Registry, r: Request)
  {
    after.leases == before.leases
    || (r.lease.Some? && r.lease.value < |before.leases|
        && after.leases == before.leases[r.lease.value := Lease(r.key, true)])
  }

  /** The step kept the request in order and touched at most its own lease. */
  ghost predicate KeptInOrder(max: nat, before: Registry, r: Request, after: Registry, r': Request)
  {
    && Consistent(max, after) && RequestInv(r') && HoldsItsLease(after, r')
    && r'.lease == r.lease && OwnLeaseOnly(before, after, r)
  }

  lemma {:induction false} FirstWaitKeeps(max: nat, registry: Registry, r: Request, id: nat, e: Event)
    requires max >= 1 && Consistent(max, registry) && RequestInv(r) && HoldsItsLease(registry, r) && r.stage.First?
    ensures var (next, r') := StepRequest(max, registry, r, Deliver(id, e)); KeptInOrder(max, registry, r, next, r')
  {
    if e.Next? {
      EmitKeepsBody(r.(stage := Body), e.chunk);
    } else if !e.Stop? {
      ReleaseReturns(max, registry, r);
    }
  }

  lemma {:induction false} BodyWaitKeeps(max: nat, registry: Registry, r: Request, id: nat, e: Event)
    requires max >= 1 && Consistent(max, registry) && RequestInv(r) && HoldsItsLease(registry, r) && r.stage.Body?
    ensures var (next, r') := StepRequest(max, registry, r, Deliver(id, e)); KeptInOrder(max, registry, r, next, r')
  {
    if e.Next? {
      EmitKeepsBody(r, e.chunk);
    } else {
      TerminalEnds(r, e);
    }
  }

  lemma {:induction false} EndKeeps(max: nat, registry: Registry, r: Request, a: Action)
    requires max >= 1 && Consistent(max, registry) && RequestInv(r) && HoldsItsLease(registry, r)
    requires (a.Abort? && r.stage.Body?) || (a.Close? && r.stage.Draining?)
    ensures var (next, r') := StepRequest(max, registry, r, a); KeptInOrder(max, registry, r, next, r')
  {
    ReleaseReturns(max, registry, r);
  }

  lemma {:induction false} StepRequestKeeps(max: nat, registry: Registry, r: Request, a: Action)
    requires max >= 1 && Consistent(max, registry) && RequestInv(r) && HoldsItsLease(registry, r) && !a.Open?
    ensures var (next, r') := StepRequest(max, registry, r, a); KeptInOrder(max, registry, r, next, r')
  {
    if a.Deliver? && r.stage.First? {
      FirstWaitKeeps(max, registry, r, a.id, a.event);
    } else if a.Deliver? && r.stage.Body? {
      BodyWaitKeeps(max, registry, r, a.id, a.event);
    } else if (a.Abort? && r.stage.Body?) || (a.Close? && r.stage.Draining?) {
      EndKeeps(max, registry, r, a);
    }
  }

  /** A step of request `id` that touches at most its own lease keeps all requests in order. */
  lemma {:induction false} OthersUnaffected(before: Registry, after: Registry, requests: seq<Request>, id: nat,
                                            r: Request)
    requires RequestsInv(before, requests) && id < |requests|
    requires RequestInv(r) && HoldsItsLease(after, r) && r.lease == requests[id].lease
    requires OwnLeaseOnly(before, after, requests[id])
    ensures RequestsInv(after, requests[id := r])
  {
    var requests' := requests[id := r];
    forall i | 0 <= i < |requests|
      ensures requests'[i].lease == requests[i].lease && RequestInv(requests'[i]) && HoldsItsLease(after, requests'[i])
    {
      if i < id && requests[i].lease.Some? {
        assert requests[i].lease != requests[id].lease;
      } else if id < i && requests[id].lease.Some? {
        assert requests[id].lease != requests[i].lease;
      }
    }
    forall l: nat | l < |after.leases|
      ensures Owned(requests', l)
    {
      assert Owned(requests, l);
      var i :| 0 <= i < |requests| && requests[i].lease == Some(l);
      assert requests'[i].lease == Some(l);
    }
  }

  lemma {:induction false} StepKeeps(max: nat, w: World, a: Action)
    requires max >= 1 && WorldInv(max, w)
    ensures WorldInv(max, Step(max, w, a))
  {
    if a.Open? {
      AcquireConsistent(max, w.registry, a.key);
      OpenKeeps(max, w.registry, w.requests, a.key);
    } else if a.id < |w.requests| {
      StepRequestKeeps(max, w.registry, w.requests[a.id], a);
      var (next, r) := StepRequest(max, w.registry, w.requests[a.id], a);
      OthersUnaffected(w.registry, next, w.requests, a.id, r);
    }
  }

  lemma {:induction false} OpenKeeps(max: nat, registry: Registry, requests: seq<Request>, key: string)
    requires RequestsInv(registry, requests)
    ensures RequestsInv(Step(max, World(registry, requests), Open(key)).registry,
                        Step(max, World(registry, requests), Open(key)).requests)
  {
    var granted := DoAcquire(max, registry, key).1;
    var next := DoAcquire(max, registry, key).0.leases;
    assert next == if granted then registry.leases + [Lease(key, false)] else registry.leases;
    var r := if granted then NewRequest(key, Some(|registry.leases|), First, 200)
             else NewRequest(key, None, Answered, 429);
    assert RequestInv(r);
    var requests' := requests + [r];
    forall l: nat | l < |next|
      ensures Owned(requests', l)
    {
      if l < |registry.leases| {
        assert Owned(requests, l);
        var i :| 0 <= i < |requests| && requests[i].lease == Some(l);
        assert requests'[i].lease == Some(l);
      } else {
        assert requests'[|requests|].lease == Some(l);
      }
    }
    forall i | 0 <= i < |requests|
      ensures requests'[i] == requests[i] && (requests[i].lease.Some? ==> requests[i].lease.value < |registry.leases|)
    {
      assert HoldsItsLease(registry, requests[i]);
    }
  }

  const IDLE := World(EMPTY, [])

  lemma {:induction false} RunKeeps(max: nat, w: World, actions: seq<Action>)
    requires max >= 1 && WorldInv(max, w)
    ensures WorldInv(max, Run(max, w, actions))
    decreases |actions|
  {
    if actions != [] {
      StepKeeps(max, w, actions[0]);
      RunKeeps(max, Step(max, w, actions[0]), actions[1..]);
    }
  }

  // ---------------------------------------------------------------- what the upstream delivered

  /** The waits of request `id` as the schedule has them, up to the point where its client leaves:
      an abort after the first wait. `open` requests exist already; `started` says whether the
      first wait has ended. */
  function Heard(actions: seq<Action>, id: nat, open: nat, started: bool): seq<Event>
  {
    if actions == [] then []
    else
      var rest := actions[1..];
      match actions[0]
      case Open(_) => Heard(rest, id, open + 1, started)
      case Deliver(i, e) =>
        if i == id < open then [e] + Heard(rest, id, open, true) else Heard(rest, id, open, started)
      case Abort(i) => if i == id < open && started then [] else Heard(rest, id, open, started)
      case Close(_) => Heard(rest, id, open, started)
  }

  /** The first wait fails, so no stream begins. */
  predicate FailsFirst(events: seq<Event>)
  {
    events != [] && !events[0].Next? && !events[0].Stop?
  }

  /** The waits that decide the stream: if the first one finds the upstream exhausted, the
      generator still starts and waits again. */
  function Relevant(events: seq<Event>): seq<Event>
  {
    if events != [] && events[0].Stop? then events[1..] else events
  }

  /** The chunks delivered before the first wait that brings none. */
  function Upstream(events: seq<Event>): seq<Chunk>
  {
    if events == [] || !events[0].Next? then [] else [events[0].chunk] + Upstream(events[1..])
  }

  /** The first wait that brings no chunk. */
  function Ending(events: seq<Event>): (e: Option<Event>)
    ensures e.Some? ==> e.value in events && !e.value.Next?
  {
    if events == [] then None else if events[0].Next? then Ending(events[1..]) else Some(events[0])
  }

  lemma {:induction false} OneMoreWait(events: seq<Event>, e: Event)
    ensures Ending(events).Some? ==>
      Upstream(events + [e]) == Upstream(events) && Ending(events + [e]) == Ending(events)
    ensures Ending(events).None? && e.Next? ==>
      Upstream(events + [e]) == Upstream(events) + [e.chunk] && Ending(events + [e]) == None
    ensures Ending(events).None? && !e.Next? ==>
      Upstream(events + [e]) == Upstream(events) && Ending(events + [e]) == Some(e)
  {
    if events == [] {
      assert events + [e] == [e];
    } else {
      assert (events + [e])[1..] == events[1..] + [e];
      OneMoreWait(events[1..], e);
    }
  }

  /** A stream began, and the request holds exactly what the upstream delivered. */
  ghost predicate Relays(r: Request, events: seq<Event>)
  {
    && events != [] && !FailsFirst(events) && r.responseStatus == 200
    && r.chunks == Upstream(Relevant(events)) && r.ending == Ending(Relevant(events))
  }

  ghost predicate FailedAtFirst(r: Request, events: seq<Event>)
  {
    FailsFirst(events) && r.responseStatus != 200 && r.ending == Some(events[0])
  }

  predicate Listening(r: Request)
  {
    r.stage.First? || r.stage.Body?
  }

  /** Where a request stands after the waits `events`. */
  ghost predicate Follows(r: Request, events: seq<Event>)
  {
    && (r.aborted ==> r.stage.Closed?)
    && if r.lease.None? then (r.stage.Answered? || r.stage.Closed?) && !r.aborted
       else
         match r.stage
         case First => events == [] && r.responseStatus == 200 && r.chunks == [] && r.ending == None
         case Body => Relays(r, events) && r.ending.None?
         case Draining => Relays(r, events) && r.ending.Some?
         case Answered => FailedAtFirst(r, events)
         case Closed =>
           if r.aborted then Relays(r, events) && r.ending.None?
           else FailedAtFirst(r, events) || (Relays(r, events) && r.ending.Some?)
  }

  lemma {:induction false} WaitFollows(max: nat, registry: Registry, r: Request, id: nat, e: Event, events: seq<Event>)
    requires Follows(r, events) && !r.aborted
    ensures Follows(StepRequest(max, registry, r, Deliver(id, e)).1, events + [e])
  {
    if r.lease.Some? {
      if events == [] {
        assert events + [e] == [e];
      } else {
        OneMoreWait(Relevant(events), e);
        assert Relevant(events + [e]) == Relevant(events) + [e];
      }
    }
  }

  /** Leaving and closing are not waits. */
  lemma {:induction false} EndFollows(max: nat, registry: Registry, r: Request, a: Action, events: seq<Event>)
    requires Follows(r, events) && !a.Open? && (a.Deliver? ==> !Listening(r))
    ensures var r' := StepRequest(max, registry, r, a).1;
      Follows(r', events) && (!Listening(r) || (a.Abort? && r.stage.Body?) ==> !Listening(r'))
  {
  }

  /** Once a request has stopped waiting, nothing it holds changes. */
  lemma {:induction false} DeafFollows(max: nat, w: World, actions: seq<Action>, id: nat, events: seq<Event>)
    requires id < |w.requests| && Follows(w.requests[id], events) && !Listening(w.requests[id])
    ensures id < |Run(max, w, actions).requests| && Follows(Run(max, w, actions).requests[id], events)
    decreases |actions|
  {
    if actions != [] {
      var a := actions[0];
      if !a.Open? && a.id == id {
        EndFollows(max, w.registry, w.requests[id], a, events);
      }
      DeafFollows(max, Step(max, w, a), actions[1..], id, events);
    }
  }

  /** How far the waits of `id` have come after action `a`, and whether its client has left. */
  lemma {:induction false} StepFollows(max: nat, w: World, a: Action, id: nat, events: seq<Event>)
    requires id < |w.requests| && Follows(w.requests[id], events) && !w.requests[id].aborted
    ensures id < |Step(max, w, a).requests|
    ensures var r := Step(max, w, a).requests[id];
      if a.Open? || a.id != id then r == w.requests[id]
      else if a.Deliver? then Follows(r, events + [a.event]) && !r.aborted
      else Follows(r, events) && if a.Abort? && events != [] then !Listening(r) else !r.aborted
  {
    if !a.Open? && a.id == id {
      if a.Deliver? {
        WaitFollows(max, w.registry, w.requests[id], id, a.event, events);
      } else {
        EndFollows(max, w.registry, w.requests[id], a, events);
      }
    }
  }

  /** A run starts with its first step. */
  lemma {:induction false} RunFirst(max: nat, w: World, actions: seq<Action>) returns (next: World)
    requires actions != []
    ensures next == Step(max, w, actions[0]) && Run(max, w, actions) == Run(max, next, actions[1..])
    ensures |next.requests| == if actions[0].Open? then |w.requests| + 1 else |w.requests|
  {
    next := Step(max, w, actions[0]);
  }

  /** What the first action adds to the waits of `id`. */
  lemma {:induction false} HeardNext(actions: seq<Action>, id: nat, open: nat, started: bool)
    requires actions != [] && id < open
    ensures var a, rest := actions[0], actions[1..];
      Heard(actions, id, open, started)
      == if a.Open? then Heard(rest, id, open + 1, started)
         else if a.id != id || a.Close? then Heard(rest, id, open, started)
         else if a.Deliver? then [a.event] + Heard(rest, id, open, true)
         else if started then [] else Heard(rest, id, open, false)
  {
  }

  /** Having followed `events` so far, request `id` follows the rest of the run. */
  ghost predicate Continues(max: nat, w: World, actions: seq<Action>, id: nat, events: seq<Event>)
  {
    && id < |Run(max, w, actions).requests|
    && Follows(Run(max, w, actions).requests[id], events + Heard(actions, id, |w.requests|, events != []))
  }

  lemma {:induction false} DeliverContinues(r: Request, actions: seq<Action>, id: nat, open: nat, events: seq<Event>)
    requires id < open && actions != [] && actions[0].Deliver? && actions[0].id == id
    requires Follows(r, (events + [actions[0].event]) + Heard(actions[1..], id, open, true))
    ensures Follows(r, events + Heard(actions, id, open, events != []))
  {
    HeardNext(actions, id, open, events != []);
    var e, later := actions[0].event, Heard(actions[1..], id, open, true);
    assert events + ([e] + later) == (events + [e]) + later;
  }

  /** In every interleaving a request follows what is delivered to it. */
  lemma {:induction false} RunFollows(max: nat, w: World, actions: seq<Action>, id: nat, events: seq<Event>)
    requires id < |w.requests| && Follows(w.requests[id], events) && !w.requests[id].aborted
    ensures Continues(max, w, actions, id, events)
    decreases |actions|
  {
    if actions == [] {
      assert events + [] == events;
    } else {
      var a, rest := actions[0], actions[1..];
      StepFollows(max, w, a, id, events);
      HeardNext(actions, id, |w.requests|, events != []);
      var next := RunFirst(max, w, actions);
      if !a.Open? && a.id == id && a.Deliver? {
        RunFollows(max, next, rest, id, events + [a.event]);
        DeliverContinues(Run(max, next, rest).requests[id], actions, id, |w.requests|, events);
      } else if a.Abort? && a.id == id && events != [] {
        DeafFollows(max, next, rest, id, events);
        assert events + [] == events;
      } else {
        RunFollows(max, next, rest, id, events);
      }
    }
  }

  lemma {:induction false} HeardBeforeOpening(actions: seq<Action>, id: nat, open: nat)
    requires actions != [] && open <= id
    ensures Heard(actions, id, open, false)
         == Heard(actions[1..], id, if actions[0].Open? then open + 1 else open, false)
  {
  }

  lemma {:induction false} NewFollows(max: nat, w: World, actions: seq<Action>)
    requires actions != [] && actions[0].Open?
    ensures var id := |w.requests|;
      && id < |Run(max, w, actions).requests|
      && Follows(Run(max, w, actions).requests[id], Heard(actions, id, id, false))
  {
    var id := |w.requests|;
    HeardBeforeOpening(actions, id, id);
    RunFollows(max, Step(max, w, actions[0]), actions[1..], id, []);
    var later := Heard(actions[1..], id, id + 1, false);
    assert [] + later == later;
  }

  /** From the opening of a request on, whenever that is. */
  lemma {:induction false} OpenedFollows(max: nat, w: World, actions: seq<Action>, id: nat)
    requires |w.requests| <= id < |Run(max, w, actions).requests|
    ensures Follows(Run(max, w, actions).requests[id], Heard(actions, id, |w.requests|, false))
    decreases |actions|
  {
    if actions[0].Open? && id == |w.requests| {
      NewFollows(max, w, actions);
    } else {
      HeardBeforeOpening(actions, id, |w.requests|);
      var next := RunFirst(max, w, actions);
      OpenedFollows(max, next, actions[1..], id);
    }
  }

  // ---------------------------------------------------------------- whole runs

  /** A closed request whose stream began and ended. */
  lemma {:induction false} EndedAsHeard(r: Request, heard: seq<Event>)
    requires RequestInv(r) && Follows(r, heard) && r.stage.Closed? && r.lease.Some?
    requires !FailsFirst(heard) && Ending(Relevant(heard)).Some?
    ensures var chunks, last := Upstream(Relevant(heard)), Terminal(Ending(Relevant(heard)).value);
      r.frames == DataFrames(chunks) + [last] && r.audits == [Verdict(last, chunks)] && r.returned == 1
  {
  }

  /** In every interleaving, a stream that began and whose upstream came to an end sent the chunks
      delivered to it in order and exactly one terminal frame, that of the wait that ended it; it
      gave its slot back exactly once, and was audited once: as 200 with the last chunk usage
      exactly when that frame is `[DONE]`, otherwise with the status of that frame and no usage. */
  lemma {:induction false} DrainedStreamOutcome(max: nat, actions: seq<Action>, id: nat)
    requires max >= 1 && id < |Run(max, IDLE, actions).requests|
    requires var r := Run(max, IDLE, actions).requests[id]; r.stage.Closed? && r.lease.Some?
    requires var heard := Heard(actions, id, 0, false); !FailsFirst(heard) && Ending(Relevant(heard)).Some?
    ensures var heard := Relevant(Heard(actions, id, 0, false));
      var r, last := Run(max, IDLE, actions).requests[id], Terminal(Ending(heard).value);
      && r.frames == DataFrames(Upstream(heard)) + [last]
      && r.returned == 1
      && r.audits == [Verdict(last, Upstream(heard))]
      && (last == Done <==> r.audits[0].status == 200)
      && (last != Done ==> r.audits[0].usage == None)
  {
    RunKeeps(max, IDLE, actions);
    OpenedFollows(max, IDLE, actions, id);
    EndedAsHeard(Run(max, IDLE, actions).requests[id], Heard(actions, id, 0, false));
  }

  /** Every end: refused requests are audited as 429 and hold nothing; requests whose first wait
      fails release, and are audited with that failure; a client that leaves mid-stream got the
      chunks delivered so far and does not keep its slot either. */
  lemma {:induction false} EveryEndReleasesOnce(max: nat, actions: seq<Action>, id: nat)
    requires max >= 1 && id < |Run(max, IDLE, actions).requests|
    requires Run(max, IDLE, actions).requests[id].stage.Closed?
    ensures var r, heard := Run(max, IDLE, actions).requests[id], Heard(actions, id, 0, false);
      && r.returned == (if r.lease.Some? then 1 else 0)
      && (r.lease.None? ==> r.frames == [] && r.audits == [Audit(429, None)])
      && (r.lease.Some? && FailsFirst(heard) ==>
            && r.frames == (if heard[0].Timeout? then [TimedOut] else [])
            && r.audits == [Verdict(Terminal(heard[0]), [])])
      && (r.lease.Some? && !FailsFirst(heard) && Ending(Relevant(heard)).None? ==>
            r.frames == DataFrames(Upstream(Relevant(heard))) && r.audits == [Audit(200, None)])
      && (r.aborted <==> r.lease.Some? && !FailsFirst(heard) && Ending(Relevant(heard)).None?)
  {
    RunKeeps(max, IDLE, actions);
    assert RequestInv(Run(max, IDLE, actions).requests[id]);
    OpenedFollows(max, IDLE, actions, id);
  }

  /** Streams in progress on a key never exceed the limit, and once every request is closed the
      limiter's dictionaries are empty. */
  lemma {:induction false} LimitHeldAndNothingLeaks(max: nat, actions: seq<Action>)
    requires max >= 1
    ensures forall k :: Holding(Run(max, IDLE, actions).registry.leases, k) <= max
    ensures (forall i | 0 <= i < |Run(max, IDLE, actions).requests| ::
               Run(max, IDLE, actions).requests[i].stage.Closed?)
        ==> Run(max, IDLE, actions).registry.slots == Slots(map[], map[])
  {
    RunKeeps(max, IDLE, actions);
    var w := Run(max, IDLE, actions);
    if forall i | 0 <= i < |w.requests| :: w.requests[i].stage.Closed? {
      forall l: nat | l < |w.registry.leases|
        ensures w.registry.leases[l].released
      {
        assert Owned(w.requests, l);
        var i :| 0 <= i < |w.requests| && w.requests[i].lease == Some(l);
        assert HoldsItsLease(w.registry, w.requests[i]);
      }
      forall k
        ensures k !in w.registry.slots.active
      {
        HoldingNone(w.registry.leases, k);
      }
      assert w.registry.slots.semaphores.Keys == {};
    }
  }

  // ---------------------------------------------------------------- who is refused

  /** The stream holds its slot. */
  predicate Live(r: Request)
  {
    r.lease.Some? && !r.stage.Answered? && !r.stage.Closed?
  }

  /** The streams of `key` in progress. */
  function InProgress(requests: seq<Request>, key: string): nat
  {
    if requests == [] then 0
    else
      var r := requests[|requests| - 1];
      InProgress(requests[..|requests| - 1], key) + if r.key == key && Live(r) then 1 else 0
  }

  lemma {:induction false} InProgressUpdate(requests: seq<Request>, i: nat, r: Request, key: string)
    requires i < |requests|
    ensures InProgress(requests[i := r], key) + (if requests[i].key == key && Live(requests[i]) then 1 else 0)
         == InProgress(requests, key) + if r.key == key && Live(r) then 1 else 0
  {
    var n, after := |requests| - 1, requests[i := r];
    if i == n {
      assert after[..n] == requests[..n];
    } else {
      assert after[..n] == requests[..n][i := r];
      InProgressUpdate(requests[..n], i, r, key);
    }
  }

  lemma {:induction false} StepRequestKeepsKey(max: nat, registry: Registry, r: Request, a: Action)
    requires !a.Open?
    ensures var r' := StepRequest(max, registry, r, a).1; r'.key == r.key && r'.lease == r.lease
  {
  }

  /** The leases held on a key are those of its streams in progress. */
  lemma {:induction false} OwnStepCounts(max: nat, registry: Registry, r: Request, a: Action, key: string)
    requires max >= 1 && Consistent(max, registry) && RequestInv(r) && HoldsItsLease(registry, r) && !a.Open?
    ensures var (next, r') := StepRequest(max, registry, r, a);
      && r'.key == r.key
      && Holding(next.leases, key) + (if r.key == key && Live(r) then 1 else 0)
         == Holding(registry.leases, key) + if r'.key == key && Live(r') then 1 else 0
  {
    StepRequestKeeps(max, registry, r, a);
    StepRequestKeepsKey(max, registry, r, a);
    var (next, r') := StepRequest(max, registry, r, a);
    if r.lease.Some? {
      var i := r.lease.value;
      HoldingAfterRelease(registry.leases, i, key);
      assert registry.leases[i].(released := true) == Lease(r.key, true);
      if r.stage.Answered? || r.stage.Closed? {
        assert registry.leases[i := Lease(r.key, true)] == registry.leases;
      }
    }
  }

  lemma {:induction false} CountsSnoc(requests: seq<Request>, r: Request, leases: seq<Lease>, lease: Lease, key: string)
    ensures InProgress(requests + [r], key) == InProgress(requests, key) + if r.key == key && Live(r) then 1 else 0
    ensures Holding(leases + [lease], key) == Holding(leases, key) + if lease == Lease(key, false) then 1 else 0
  {
    assert (requests + [r])[..|requests|] == requests && (leases + [lease])[..|leases|] == leases;
  }

  lemma {:induction false} OpenCounts(max: nat, w: World, opening: string, key: string)
    requires InProgress(w.requests, key) == Holding(w.registry.leases, key)
    ensures var w' := Step(max, w, Open(opening)); InProgress(w'.requests, key) == Holding(w'.registry.leases, key)
  {
    var (registry, granted) := DoAcquire(max, w.registry, opening);
    var lease := Lease(opening, false);
    if granted {
      CountsSnoc(w.requests, NewRequest(opening, Some(|w.registry.leases|), First, 200), w.registry.leases, lease, key);
    } else {
      CountsSnoc(w.requests, NewRequest(opening, None, Answered, 429), w.registry.leases, lease, key);
    }
  }

  lemma {:induction false} StepCounts(max: nat, w: World, a: Action, key: string)
    requires max >= 1 && WorldInv(max, w) && InProgress(w.requests, key) == Holding(w.registry.leases, key)
    ensures var w' := Step(max, w, a); InProgress(w'.requests, key) == Holding(w'.registry.leases, key)
  {
    var w' := Step(max, w, a);
    if a.Open? {
      OpenCounts(max, w, a.key, key);
    } else if a.id < |w.requests| {
      OwnStepCounts(max, w.registry, w.requests[a.id], a, key);
      InProgressUpdate(w.requests, a.id, w'.requests[a.id], key);
    }
  }

  lemma {:induction false} RunCounts(max: nat, w: World, actions: seq<Action>, key: string)
    requires max >= 1 && WorldInv(max, w) && InProgress(w.requests, key) == Holding(w.registry.leases, key)
    ensures var w' := Run(max, w, actions); InProgress(w'.requests, key) == Holding(w'.registry.leases, key)
    decreases |actions|
  {
    if actions != [] {
      StepKeeps(max, w, actions[0]);
      StepCounts(max, w, actions[0], key);
      RunCounts(max, Step(max, w, actions[0]), actions[1..], key);
    }
  }

  lemma {:induction false} StepKeepsRequest(max: nat, w: World, a: Action, id: nat)
    requires id < |w.requests|
    ensures var w' := Step(max, w, a);
      id < |w'.requests| && w'.requests[id].key == w.requests[id].key && w'.requests[id].lease == w.requests[id].lease
  {
    if !a.Open? && a.id == id {
      StepRequestKeepsKey(max, w.registry, w.requests[id], a);
    }
  }

  lemma {:induction false} RunKeepsRequest(max: nat, w: World, actions: seq<Action>, id: nat)
    requires id < |w.requests|
    ensures var w' := Run(max, w, actions);
      id < |w'.requests| && w'.requests[id].key == w.requests[id].key && w'.requests[id].lease == w.requests[id].lease
    decreases |actions|
  {
    if actions != [] {
      StepKeepsRequest(max, w, actions[0], id);
      RunKeepsRequest(max, Step(max, w, actions[0]), actions[1..], id);
    }
  }

  lemma {:induction false} RunConcat(max: nat, w: World, a: seq<Action>, b: seq<Action>)
    ensures Run(max, w, a + b) == Run(max, Run(max, w, a), b)
    decreases |a|
  {
    if a == [] {
      assert a + b == b;
    } else {
      assert (a + b)[1..] == a[1..] + b;
      RunConcat(max, Step(max, w, a[0]), a[1..], b);
    }
  }

  /** Opening adds one request, refused exactly when the key already has `max` streams in progress. */
  lemma {:induction false} OpenRefusesIffFull(max: nat, w: World, key: string)
    requires max >= 1 && WorldInv(max, w) && InProgress(w.requests, key) == Holding(w.registry.leases, key)
    ensures var w' := Step(max, w, Open(key));
      && |w'.requests| == |w.requests| + 1 && w'.requests[..|w.requests|] == w.requests
      && w'.requests[|w.requests|].key == key
      && (w'.requests[|w.requests|].lease.None? <==> InProgress(w.requests, key) == max)
      && InProgress(w.requests, key) <= max
  {
    AcquireConsistent(max, w.registry, key);
  }

  /** In every interleaving, whatever happens afterwards, a request is refused if and only if `max`
      streams of its key are in progress when it comes in. */
  lemma {:induction false} RefusedIffFull(max: nat, before: seq<Action>, key: string, after: seq<Action>)
    requires max >= 1
    ensures var w, last := Run(max, IDLE, before), Run(max, IDLE, before + ([Open(key)] + after));
      && |w.requests| < |last.requests| && last.requests[|w.requests|].key == key
      && (last.requests[|w.requests|].lease.None? <==> InProgress(w.requests, key) == max)
  {
    var w := Run(max, IDLE, before);
    RunKeeps(max, IDLE, before);
    RunCounts(max, IDLE, before, key);
    OpenRefusesIffFull(max, w, key);
    RunConcat(max, IDLE, before, [Open(key)] + after);
    assert ([Open(key)] + after)[1..] == after;
    RunKeepsRequest(max, Step(max, w, Open(key)), after, |w.requests|);
  }

  // ---------------------------------------------------------------- how far a request has come

  datatype Standing = Waiting | Replied | Over

  /** Where the schedule leaves request `id`, having delivered `events` to it so far: its handler or
      stream is waiting; or it has been answered without a stream (`replied`); or it is over. That
      takes a close after its stream ended or it was answered, or a client that leaves mid-stream. */
  function Stand(actions: seq<Action>, id: nat, open: nat, events: seq<Event>, replied: bool): Standing
    decreases |actions|
  {
    if actions == [] then if replied then Replied else Waiting
    else
      var a, rest := actions[0], actions[1..];
      if a.Open? then Stand(rest, id, open + 1, events, replied)
      else if a.id != id || open <= id then Stand(rest, id, open, events, replied)
      else if a.Deliver? && !replied then Stand(rest, id, open, events + [a.event], FailsFirst(events + [a.event]))
      else if a.Abort? && !replied && events != [] && Ending(Relevant(events)).None? then Over
      else if a.Close? && (replied || Ending(Relevant(events)).Some?) then Over
      else Stand(rest, id, open, events, replied)
  }

  ghost predicate Stands(r: Request, standing: Standing)
  {
    match standing
    case Waiting => r.stage.First? || r.stage.Body? || r.stage.Draining?
    case Replied => r.stage.Answered?
    case Over => r.stage.Closed?
  }

  lemma {:induction false} WaitStands(max: nat, registry: Registry, r: Request, id: nat, e: Event, events: seq<Event>)
    requires Follows(r, events) && !r.stage.Closed? && !r.stage.Answered?
    ensures var r' := StepRequest(max, registry, r, Deliver(id, e)).1;
      Follows(r', events + [e]) && !r'.stage.Closed? && r'.stage.Answered? == FailsFirst(events + [e])
  {
    WaitFollows(max, registry, r, id, e, events);
    if events != [] {
      assert (events + [e])[0] == events[0];
    }
  }

  /** One action addressed to a request that is not over. */
  lemma {:induction false} OwnStepStands(max: nat, registry: Registry, r: Request, a: Action, events: seq<Event>)
    requires Follows(r, events) && !r.stage.Closed? && !a.Open?
    ensures var r', replied := StepRequest(max, registry, r, a).1, r.stage.Answered?;
      if a.Deliver? && !replied then
        Follows(r', events + [a.event]) && !r'.stage.Closed? && r'.stage.Answered? == FailsFirst(events + [a.event])
      else if a.Abort? && !replied && events != [] && Ending(Relevant(events)).None? then r'.stage.Closed?
      else if a.Close? && (replied || Ending(Relevant(events)).Some?) then r'.stage.Closed?
      else Follows(r', events) && r'.stage == r.stage
  {
    if a.Deliver? && !r.stage.Answered? {
      WaitStands(max, registry, r, a.id, a.event, events);
    } else {
      EndFollows(max, registry, r, a, events);
    }
  }

  lemma {:induction false} ClosedStays(max: nat, w: World, actions: seq<Action>, id: nat)
    requires id < |w.requests| && w.requests[id].stage.Closed?
    ensures id < |Run(max, w, actions).requests| && Run(max, w, actions).requests[id].stage.Closed?
    decreases |actions|
  {
    if actions != [] {
      ClosedStays(max, Step(max, w, actions[0]), actions[1..], id);
    }
  }

  lemma {:induction false} RunStands(max: nat, w: World, actions: seq<Action>, id: nat, events: seq<Event>)
    requires id < |w.requests| && Follows(w.requests[id], events) && !w.requests[id].stage.Closed?
    ensures id < |Run(max, w, actions).requests|
    ensures Stands(Run(max, w, actions).requests[id],
                   Stand(actions, id, |w.requests|, events, w.requests[id].stage.Answered?))
    decreases |actions|
  {
    if actions != [] {
      var a, rest, r := actions[0], actions[1..], w.requests[id];
      var next := RunFirst(max, w, actions);
      if a.Open? || a.id != id {
        RunStands(max, next, rest, id, events);
      } else {
        OwnStepStands(max, w.registry, r, a, events);
        if next.requests[id].stage.Closed? {
          ClosedStays(max, next, rest, id);
        } else {
          RunStands(max, next, rest, id, if a.Deliver? && !r.stage.Answered? then events + [a.event] else events);
        }
      }
    }
  }

  /** In every interleaving a request has come as far as the schedule took it; a refused one starts
      out answered. So a granted stream holds its slot exactly while the schedule has it waiting. */
  lemma {:induction false} RequestStands(max: nat, w: World, actions: seq<Action>, id: nat)
    requires |w.requests| <= id < |Run(max, w, actions).requests|
    ensures var r := Run(max, w, actions).requests[id];
      && Stands(r, Stand(actions, id, |w.requests|, [], r.lease.None?))
      && (Live(r) <==> r.lease.Some? && Stand(actions, id, |w.requests|, [], r.lease.None?) == Waiting)
    decreases |actions|
  {
    var next := RunFirst(max, w, actions);
    if id < |next.requests| {
      RunKeepsRequest(max, next, actions[1..], id);
      RunStands(max, next, actions[1..], id, []);
    } else {
      RequestStands(max, next, actions[1..], id);
    }
  }

  // ---------------------------------------------------------------- the generator

  class RequestState {
    var auditStatus: Option<int>
    var tokenUsage: Option<Usage>

    constructor ()
      ensures auditStatus == None && tokenUsage == None
    {
      auditStatus, tokenUsage := None, None;
    }
  }

  lemma {:induction false} OneMoreChunk(chunks: seq<Chunk>, n: nat)
    requires n < |chunks|
    ensures DataFrames(chunks[..n + 1]) == DataFrames(chunks[..n]) + [Data(chunks[n])]
    ensures LastUsage(chunks[..n + 1])
         == if chunks[n].usage.Some? then chunks[n].usage else LastUsage(chunks[..n])
  {
    assert chunks[..n + 1][..n] == chunks[..n];
  }

  /** The chunk loop of `_stream_chunks`: the first chunk if there is one, then the rest, tracking
      the last usage seen. */
  method RelayChunks(first: Option<Chunk>, rest: seq<Chunk>) returns (frames: seq<Frame>, usage: Option<Usage>)
    ensures var chunks := (if first.Some? then [first.value] else []) + rest;
      frames == DataFrames(chunks) && usage == LastUsage(chunks)
  {
    ghost var chunks := (if first.Some? then [first.value] else []) + rest;
    frames, usage := [], None;
    if first.Some? {
      if first.value.usage.Some? {
        usage := first.value.usage;
      }
      frames := [Data(first.value)];
      OneMoreChunk(chunks, 0);
    }
    ghost var taken := |frames|;
    assert |chunks| == taken + |rest| && frames == DataFrames(chunks[..taken]) && usage == LastUsage(chunks[..taken]);
    for n := 0 to |rest|
      invariant frames == DataFrames(chunks[..taken + n]) && usage == LastUsage(chunks[..taken + n])
    {
      var chunk := rest[n];
      assert chunks[taken + n] == chunk;
      OneMoreChunk(chunks, taken + n);
      if chunk.usage.Some? {
        usage := chunk.usage;
      }
      frames := frames + [Data(chunk)];
    }
    assert chunks[..taken + |rest|] == chunks;
  }

  /** `_stream_chunks` drained to its end: `first` is the chunk already taken, `rest` what the
      upstream still yields before `ending`. */
  method StreamChunks(state: RequestState, first: Option<Chunk>, rest: seq<Chunk>, ending: Event,
                      limiter: StreamConcurrencyLimiter, lease: StreamLease, ghost i: nat)
    returns (frames: seq<Frame>)
    requires !ending.Next? && state.auditStatus == None && state.tokenUsage == None
    requires limiter.Valid() && i < |limiter.issued| && limiter.issued[i] == lease
    modifies state, limiter`semaphores, limiter`active, limiter`leases, lease`released
    ensures var chunks := (if first.Some? then [first.value] else []) + rest;
      && frames == DataFrames(chunks) + [Terminal(ending)]
      && Audit(if state.auditStatus.Some? then state.auditStatus.value else 200, state.tokenUsage)
         == Verdict(Terminal(ending), chunks)
    ensures limiter.Valid() && limiter.Abs() == DoRelease(limiter.max, old(limiter.Abs()), i).0 && lease.released
  {
    var usage;
    frames, usage := RelayChunks(first, rest);
    match ending {
      case Stop =>
        state.tokenUsage := usage;
        frames := frames + [Done];
      case Timeout =>
        state.auditStatus := Some(504);
        frames := frames + [TimedOut];
      case ApiFailure(status) =>
        state.auditStatus := Some(status);
        frames := frames + [ApiError(status)];
      case Crash =>
        state.auditStatus := Some(500);
        frames := frames + [InternalError];
    }
    limiter.ReleaseLease(lease, i);
  }

  // ---------------------------------------------------------------- the generator as machine steps

  /** The steps of the generator after its first wait. */
  function RestOfStream(id: nat, rest: seq<Chunk>, ending: Event): seq<Action>
  {
    if rest == [] then [Deliver(id, ending), Close(id)]
    else [Deliver(id, Next(rest[0]))] + RestOfStream(id, rest[1..], ending)
  }

  /** The steps of one stream served without interruption. */
  function WholeStream(id: nat, first: Option<Chunk>, rest: seq<Chunk>, ending: Event): seq<Action>
  {
    [Deliver(id, if first.Some? then Next(first.value) else Stop)] + RestOfStream(id, rest, ending)
  }

  lemma {:induction false} RestIsHeard(id: nat, rest: seq<Chunk>, ending: Event, open: nat)
    requires id < open && !ending.Next?
    ensures Upstream(Heard(RestOfStream(id, rest, ending), id, open, true)) == rest
    ensures Ending(Heard(RestOfStream(id, rest, ending), id, open, true)) == Some(ending)
  {
    var actions := RestOfStream(id, rest, ending);
    if rest == [] {
      assert actions[1..] == [Close(id)] && actions[1..][1..] == [];
    } else {
      assert actions[1..] == RestOfStream(id, rest[1..], ending);
      RestIsHeard(id, rest[1..], ending, open);
    }
  }

  lemma {:induction false} RunTwo(max: nat, w: World, a: Action, b: Action)
    ensures Run(max, w, [a, b]) == Step(max, Step(max, w, a), b)
  {
    assert [a, b][1..] == [b] && [b][1..] == [];
    assert Run(max, Step(max, w, a), [b]) == Run(max, Step(max, Step(max, w, a), b), []);
  }

  /** Serving the rest changes this request alone, and the limiter by one release at its end. */
  lemma {:induction false} RestOfStreamRuns(max: nat, w: World, id: nat, rest: seq<Chunk>, ending: Event)
    requires id < |w.requests| && w.requests[id].stage.Body? && !ending.Next?
    ensures var w' := Run(max, w, RestOfStream(id, rest, ending));
      && |w'.requests| == |w.requests| && w'.requests == w.requests[id := w'.requests[id]]
      && w'.requests[id].stage.Closed? && w'.requests[id].lease == w.requests[id].lease
      && w'.registry == ReleaseOf(max, w.registry, w.requests[id]).0
    decreases |rest|
  {
    var actions := RestOfStream(id, rest, ending);
    var mid := Step(max, w, actions[0]);
    if rest == [] {
      RunTwo(max, w, Deliver(id, ending), Close(id));
    } else {
      assert actions[1..] == RestOfStream(id, rest[1..], ending);
      RestOfStreamRuns(max, mid, id, rest[1..], ending);
    }
  }

  lemma {:induction false} WholeStreamRuns(max: nat, w: World, id: nat, first: Option<Chunk>, rest: seq<Chunk>,
                                           ending: Event)
    requires id < |w.requests| && w.requests[id].stage.First? && !ending.Next?
    ensures var w' := Run(max, w, WholeStream(id, first, rest, ending));
      && |w'.requests| == |w.requests| && w'.requests == w.requests[id := w'.requests[id]]
      && w'.requests[id].stage.Closed? && w'.requests[id].lease == w.requests[id].lease
      && w'.registry == ReleaseOf(max, w.registry, w.requests[id]).0
  {
    var actions := WholeStream(id, first, rest, ending);
    assert actions[1..] == RestOfStream(id, rest, ending);
    RestOfStreamRuns(max, Step(max, w, actions[0]), id, rest, ending);
  }

  /** What `StreamChunks` promises is what the machine does when its steps are taken in a row: the
      same frames, the same audit, and the same release, other requests being left alone. */
  lemma {:induction false} GeneratorIsMachineRun(max: nat, w: World, id: nat, first: Option<Chunk>, rest: seq<Chunk>,
                                                 ending: Event)
    requires max >= 1 && WorldInv(max, w) && id < |w.requests| && w.requests[id].stage.First? && !ending.Next?
    ensures var w' := Run(max, w, WholeStream(id, first, rest, ending));
      var chunks := (if first.Some? then [first.value] else []) + rest;
      && |w'.requests| == |w.requests| && w'.requests == w.requests[id := w'.requests[id]]
      && w'.requests[id].frames == DataFrames(chunks) + [Terminal(ending)]
      && w'.requests[id].audits == [Verdict(Terminal(ending), chunks)]
      && w.requests[id].lease.Some? && w'.registry == DoRelease(max, w.registry, w.requests[id].lease.value).0
  {
    var actions := WholeStream(id, first, rest, ending);
    assert RequestInv(w.requests[id]) && HoldsItsLease(w.registry, w.requests[id]);
    WholeStreamRuns(max, w, id, first, rest, ending);
    RunKeeps(max, w, actions);
    RunFollows(max, w, actions, id, []);
    var heard := Heard(actions, id, |w.requests|, false);
    assert [] + heard == heard;
    StreamHeard(id, first, rest, ending, |w.requests|);
    EndedAsHeard(Run(max, w, actions).requests[id], heard);
  }

  lemma {:induction false} HeardFirst(id: nat, e: Event, later: seq<Action>, open: nat)
    requires id < open
    ensures Heard([Deliver(id, e)] + later, id, open, false) == [e] + Heard(later, id, open, true)
  {
    assert ([Deliver(id, e)] + later)[1..] == later;
  }

  lemma {:induction false} FirstThenRest(first: Option<Chunk>, later: seq<Event>)
    ensures var heard := [if first.Some? then Next(first.value) else Stop] + later;
      && !FailsFirst(heard) && Ending(Relevant(heard)) == Ending(later)
      && Upstream(Relevant(heard)) == (if first.Some? then [first.value] else []) + Upstream(later)
  {
    var heard := [if first.Some? then Next(first.value) else Stop] + later;
    assert heard[1..] == later;
  }

  lemma {:induction false} StreamHeard(id: nat, first: Option<Chunk>, rest: seq<Chunk>, ending: Event, open: nat)
    requires id < open && !ending.Next?
    ensures var heard := Heard(WholeStream(id, first, rest, ending), id, open, false);
      && !FailsFirst(heard) && Ending(Relevant(heard)) == Some(ending)
      && Upstream(Relevant(heard)) == (if first.Some? then [first.value] else []) + rest
  {
    var later := RestOfStream(id, rest, ending);
    HeardFirst(id, if first.Some? then Next(first.value) else Stop, later, open);
    RestIsHeard(id, rest, ending, open);
    FirstThenRest(first, Heard(later, id, open, true));
  }
}
