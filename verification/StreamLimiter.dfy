/** The per-key limit on concurrent streams (`app/streaming.py`): two dictionaries, and leases
    that may be released more than once. */
module StreamLimiter {

  /** `_semaphores` (free permits per key) and `_active` (streams per key). */
  datatype Slots = Slots(semaphores: map<string, nat>, active: map<string, nat>)

  /** How a release ended; the middle two are the defensive exits of the code. */
  datatype Outcome = AlreadyReleased | NothingHeld | OverRelease | Returned

  function AcquireSlot(max: nat, s: Slots, key: string): (Slots, bool)
  {
    var free := if key in s.semaphores then s.semaphores[key] else max;
    if free == 0 then (s.(semaphores := s.semaphores[key := free]), false)
    else
      var active := if key in s.active then s.active[key] else 0;
      (Slots(s.semaphores[key := free - 1], s.active[key := active + 1]), true)
  }

  function ReleaseSlot(max: nat, s: Slots, key: string, released: bool): (Slots, Outcome)
  {
    if released then (s, AlreadyReleased)
    else if key !in s.semaphores || key !in s.active || s.active[key] == 0 then (s, NothingHeld)
    else if s.semaphores[key] >= max then (s, OverRelease)
    else if s.active[key] == 1 then (Slots(s.semaphores - {key}, s.active - {key}), Returned)
    else (Slots(s.semaphores[key := s.semaphores[key] + 1], s.active[key := s.active[key] - 1]), Returned)
  }

  datatype Lease = Lease(key: string, released: bool)

  /** The limiter together with every lease it ever issued. */
  datatype Registry = Registry(slots: Slots, leases: seq<Lease>)

  datatype Op = Acquire(key: string) | Release(lease: nat)

  function DoAcquire(max: nat, r: Registry, key: string): (Registry, bool)
  {
    var (slots, granted) := AcquireSlot(max, r.slots, key);
    (Registry(slots, if granted then r.leases + [Lease(key, false)] else r.leases), granted)
  }

  function DoRelease(max: nat, r: Registry, i: nat): (Registry, Outcome)
    requires i < |r.leases|
  {
    var lease := r.leases[i];
    var (slots, outcome) := ReleaseSlot(max, r.slots, lease.key, lease.released);
    (Registry(slots, r.leases[i := lease.(released := true)]), outcome)
  }

  /** Leases of `key` not yet released. */
  function Holding(leases: seq<Lease>, key: string): nat
  {
    if leases == [] then 0
    else Holding(leases[..|leases| - 1], key)
         + if leases[|leases| - 1] == Lease(key, false) then 1 else 0
  }

  /** The dictionaries hold exactly the keys with live leases, counts agree with the leases, and
      free permits plus streams make up the limit. */
  ghost predicate Consistent(max: nat, r: Registry)
  {
    && r.slots.semaphores.Keys == r.slots.active.Keys
    && forall k ::
         && (k in r.slots.active <==> Holding(r.leases, k) > 0)
         && Holding(r.leases, k) <= max
         && (k in r.slots.active ==>
               r.slots.active[k] == Holding(r.leases, k) && r.slots.semaphores[k] + r.slots.active[k] == max)
  }

  lemma {:induction false} HoldingAfterRelease(leases: seq<Lease>, i: nat, key: string)
    requires i < |leases|
    ensures Holding(leases[i := leases[i].(released := true)], key)
         == Holding(leases, key) - if leases[i] == Lease(key, false) then 1 else 0
  {
    var n := |leases| - 1;
    var after := leases[i := leases[i].(released := true)];
    if i == n {
      assert after[..n] == leases[..n];
    } else {
      assert after[..n] == leases[..n][i := leases[i].(released := true)];
      HoldingAfterRelease(leases[..n], i, key);
    }
  }

  /** Acquire keeps the registry consistent and fails exactly when the key holds the maximum. */
  lemma {:induction false} AcquireConsistent(max: nat, r: Registry, key: string)
    requires max >= 1 && Consistent(max, r)
    ensures Consistent(max, DoAcquire(max, r, key).0)
    ensures DoAcquire(max, r, key).1 <==> Holding(r.leases, key) < max
    ensures !DoAcquire(max, r, key).1 ==> DoAcquire(max, r, key).0 == r
  {
    var (r', granted) := DoAcquire(max, r, key);
    if granted {
      assert r'.leases[..|r.leases|] == r.leases;
    } else {
      assert r.slots.semaphores[key := 0] == r.slots.semaphores;
    }
  }

  /** Releasing keeps the registry consistent; the first release of a lease returns its slot and
      later ones do nothing. The defensive exits are never taken. */
  lemma {:induction false} ReleaseConsistent(max: nat, r: Registry, i: nat)
    requires max >= 1 && Consistent(max, r) && i < |r.leases|
    ensures Consistent(max, DoRelease(max, r, i).0)
    ensures DoRelease(max, r, i).1 == if r.leases[i].released then AlreadyReleased else Returned
    ensures r.leases[i].released ==> DoRelease(max, r, i).0 == r
  {
    var r' := DoRelease(max, r, i).0;
    forall k
      ensures Holding(r'.leases, k) == Holding(r.leases, k) - if r.leases[i] == Lease(k, false) then 1 else 0
    {
      HoldingAfterRelease(r.leases, i, k);
    }
    if r.leases[i].released {
      assert r.leases[i := r.leases[i].(released := true)] == r.leases;
    } else {
      HoldingPositive(r.leases, i);
    }
  }

  lemma {:induction false} HoldingPositive(leases: seq<Lease>, i: nat)
    requires i < |leases| && !leases[i].released
    ensures Holding(leases, leases[i].key) > 0
  {
    HoldingAfterRelease(leases, i, leases[i].key);
  }

  // ---------------------------------------------------------------- whole runs

  const EMPTY := Registry(Slots(map[], map[]), [])

  /** Any sequence of operations; releasing a lease that was never issued is not possible and
      leaves the registry alone. */
  function RunOps(max: nat, r: Registry, ops: seq<Op>): Registry
    decreases |ops|
  {
    if ops == [] then r
    else
      var next := match ops[0]
        case Acquire(key) => DoAcquire(max, r, key).0
        case Release(i) => if i < |r.leases| then DoRelease(max, r, i).0 else r;
      RunOps(max, next, ops[1..])
  }

  lemma {:induction false} RunConsistent(max: nat, r: Registry, ops: seq<Op>)
    requires max >= 1 && Consistent(max, r)
    ensures Consistent(max, RunOps(max, r, ops))
    decreases |ops|
  {
    if ops != [] {
      match ops[0] {
        case Acquire(key) =>
          AcquireConsistent(max, r, key);
          RunConsistent(max, DoAcquire(max, r, key).0, ops[1..]);
        case Release(i) =>
          if i < |r.leases| {
            ReleaseConsistent(max, r, i);
            RunConsistent(max, DoRelease(max, r, i).0, ops[1..]);
          } else {
            RunConsistent(max, r, ops[1..]);
          }
      }
    }
  }

  lemma {:induction false} HoldingNone(leases: seq<Lease>, key: string)
    requires forall i | 0 <= i < |leases| :: leases[i].released
    ensures Holding(leases, key) == 0
  {
    if leases != [] {
      HoldingNone(leases[..|leases| - 1], key);
    }
  }

  /** Once every lease has been released, whatever the order and number of releases, both
      dictionaries are empty again. */
  lemma {:induction false} NothingLeaks(max: nat, ops: seq<Op>)
    requires max >= 1
    requires forall i | 0 <= i < |RunOps(max, EMPTY, ops).leases| :: RunOps(max, EMPTY, ops).leases[i].released
    ensures RunOps(max, EMPTY, ops).slots == Slots(map[], map[])
  {
    var r := RunOps(max, EMPTY, ops);
    RunConsistent(max, EMPTY, ops);
    forall k
      ensures k !in r.slots.active
    {
      HoldingNone(r.leases, k);
    }
    assert r.slots.semaphores.Keys == {};
  }

  /** With a limit of zero the invariant fails: a refused key is left behind in `_semaphores`. */
  lemma {:induction false} ZeroLimitLeavesAnEntry(key: string)
    ensures !DoAcquire(0, EMPTY, key).1
    ensures !Consistent(0, DoAcquire(0, EMPTY, key).0)
  {
    assert key in DoAcquire(0, EMPTY, key).0.slots.semaphores.Keys;
  }

  // ---------------------------------------------------------------- the objects

  class StreamLease {
    const key: string
    var released: bool

    constructor (k: string)
      ensures key == k && !released
    {
      key := k;
      released := false;
    }
  }

  class StreamConcurrencyLimiter {
    const max: nat
    var semaphores: map<string, nat>
    var active: map<string, nat>
    ghost var issued: seq<StreamLease>
    ghost var leases: seq<Lease>

    ghost function Abs(): Registry
      reads this
    {
      Registry(Slots(semaphores, active), leases)
    }

    /** `leases` is what the issued objects say. What every run keeps of `Abs` is `RunConsistent`. */
    ghost predicate Valid()
      reads this, issued
    {
      && |leases| == |issued|
      && (forall i | 0 <= i < |issued| :: leases[i] == Lease(issued[i].key, issued[i].released))
      && (forall i, j | 0 <= i < j < |issued| :: issued[i] != issued[j])
    }

    constructor (maxConcurrentStreams: nat)
      ensures Valid() && max == maxConcurrentStreams && issued == [] && Abs() == EMPTY
    {
      max := maxConcurrentStreams;
      semaphores, active := map[], map[];
      issued, leases := [], [];
    }

    /** The dictionary updates of `acquire`. */
    method TakePermit(key: string) returns (granted: bool)
      modifies this`semaphores, this`active
      ensures (Slots(semaphores, active), granted) == AcquireSlot(max, Slots(old(semaphores), old(active)), key)
    {
      ghost var before := semaphores;
      var free := if key in semaphores then semaphores[key] else max;
      semaphores := semaphores[key := free];
      if free == 0 {
        return false;
      }
      semaphores := semaphores[key := free - 1];
      assert semaphores == before[key := free - 1];
      active := active[key := (if key in active then active[key] else 0) + 1];
      granted := true;
    }

    method AcquireLease(key: string) returns (lease: StreamLease?)
      requires Valid()
      modifies this
      ensures Valid() && Abs() == DoAcquire(max, old(Abs()), key).0
      ensures lease != null <==> DoAcquire(max, old(Abs()), key).1
      ensures lease != null ==> fresh(lease) && lease.key == key && !lease.released && issued == old(issued) + [lease]
      ensures lease == null ==> issued == old(issued)
    {
      var granted := TakePermit(key);
      if !granted {
        return null;
      }
      lease := new StreamLease(key);
      issued, leases := issued + [lease], leases + [Lease(key, false)];
    }

    /** The dictionary updates of `release` for an unreleased lease. */
    method ReturnPermit(key: string)
      modifies this`semaphores, this`active
      ensures Slots(semaphores, active) == ReleaseSlot(max, Slots(old(semaphores), old(active)), key, false).0
    {
      if key !in semaphores || key !in active || active[key] == 0 {
        return;
      }
      if semaphores[key] >= max {
        return;
      }
      ghost var before := semaphores;
      semaphores := semaphores[key := semaphores[key] + 1];
      if active[key] == 1 {
        active := active - {key};
        semaphores := semaphores - {key};
        assert semaphores == before - {key};
      } else {
        active := active[key := active[key] - 1];
      }
    }

    /** Releases the lease issued as number `i`; repeated releases do nothing. */
    method ReleaseLease(lease: StreamLease, ghost i: nat)
      requires Valid() && i < |issued| && issued[i] == lease
      modifies this`semaphores, this`active, this`leases, lease`released
      ensures Valid() && Abs() == DoRelease(max, old(Abs()), i).0
      ensures lease.released
    {
      leases := leases[i := leases[i].(released := true)];
      if lease.released {
        return;
      }
      ReturnPermit(lease.key);
      lease.released := true;
    }
  }
}
