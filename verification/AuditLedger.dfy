/** Where audit records live: the database, the JSONL fallback file, the snapshots of replays in
    progress, and the quarantine file (`app/observability.py`, `app/audit_fallback.py`,
    `replay_audit_fallback`), under every interleaving of their steps. */
module AuditLedger {

  type Record = nat

  /** A line of the fallback file: blank, an audit record, or text that is not one. */
  datatype Line = Blank | Entry(record: Record) | Garbage(text: string)

  /** How often a record occurs in a list of lines. */
  function Copies(lines: seq<Line>, x: Record): nat
  {
    if lines == [] then 0
    else (if lines[0] == Entry(x) then 1 else 0) + Copies(lines[1..], x)
  }

  lemma {:induction false} CopiesConcat(a: seq<Line>, b: seq<Line>, x: Record)
    ensures Copies(a + b, x) == Copies(a, x) + Copies(b, x)
  {
    if a == [] {
      assert a + b == b;
    } else {
      assert (a + b)[1..] == a[1..] + b;
      CopiesConcat(a[1..], b, x);
    }
  }

  function NonBlank(lines: seq<Line>): seq<Line>
  {
    if lines == [] then []
    else (if lines[0] == Blank then [] else [lines[0]]) + NonBlank(lines[1..])
  }

  lemma {:induction false} NonBlankCopies(lines: seq<Line>, x: Record)
    ensures Copies(NonBlank(lines), x) == Copies(lines, x)
  {
    if lines != [] {
      NonBlankCopies(lines[1..], x);
      CopiesConcat(if lines[0] == Blank then [] else [lines[0]], NonBlank(lines[1..]), x);
    }
  }

  // ---------------------------------------------------------------- one replay

  /** A replay in progress: its snapshot, the next line, the lines set aside, and its counters. */
  datatype Replay = Replay(lines: seq<Line>, next: nat, quarantine: seq<Line>, replayed: nat, failed: nat, done: bool)

  function NewReplay(lines: seq<Line>): Replay
  {
    Replay(lines, 0, [], 0, 0, false)
  }

  /** Whether processing the next line inserts its record, given what the database does. */
  predicate Inserts(r: Replay, commits: bool)
    requires r.next < |r.lines|
  {
    r.lines[r.next].Entry? && commits
  }

  /** Processing one line: blank lines are skipped, a committed record is counted, everything
      else is set aside. */
  function Process(r: Replay, commits: bool): Replay
    requires r.next < |r.lines|
  {
    var line := r.lines[r.next];
    var moved := r.(next := r.next + 1);
    if line == Blank then moved
    else if Inserts(r, commits) then moved.(replayed := r.replayed + 1)
    else moved.(failed := r.failed + 1, quarantine := r.quarantine + [line])
  }

  /** What the `finally` clause writes to quarantine. */
  function Leftover(r: Replay): seq<Line>
    requires r.next <= |r.lines|
  {
    r.quarantine + NonBlank(r.lines[r.next..])
  }

  ghost predicate ReplayInv(r: Replay)
  {
    r.next <= |r.lines|
  }

  /** Copies of a record that a replay still has to account for. */
  ghost function Outstanding(r: Replay, x: Record): nat
    requires ReplayInv(r)
  {
    if r.done then 0 else Copies(r.quarantine, x) + Copies(r.lines[r.next..], x)
  }

  lemma {:induction false} LeftoverIsOutstanding(r: Replay, x: Record)
    requires ReplayInv(r) && !r.done
    ensures Copies(Leftover(r), x) == Outstanding(r, x)
  {
    NonBlankCopies(r.lines[r.next..], x);
    CopiesConcat(r.quarantine, NonBlank(r.lines[r.next..]), x);
  }

  /** A processed record goes to the database or stays with the replay. */
  lemma {:induction false} ProcessConserves(r: Replay, commits: bool, x: Record)
    requires r.next < |r.lines| && !r.done
    ensures ReplayInv(Process(r, commits))
    ensures Outstanding(r, x) == Outstanding(Process(r, commits), x)
            + if Inserts(r, commits) && r.lines[r.next].record == x then 1 else 0
  {
    var line := r.lines[r.next];
    assert r.lines[r.next..][1..] == r.lines[r.next + 1..];
    CopiesConcat(r.quarantine, [line], x);
  }

  // ---------------------------------------------------------------- the ledger

  datatype Ledger = Ledger(
    pending: multiset<Record>,   // finalized requests whose insert has not ended
    db: multiset<Record>,
    live: seq<Line>,             // the fallback file
    replays: seq<Replay>,
    failed: seq<Line>,           // the quarantine file
    finalized: multiset<Record>, // history: everything ever finalized
    doubled: multiset<Record>)   // history: committed although the replay was cut off at that line

  datatype Action =
    | Finish(record: Record)
    | Insert(record: Record, commits: bool)
    | StartReplay
    | ReplayLine(id: nat, commits: bool)
    | EndReplay(id: nat)
    | Interrupt(id: nat, committed: bool)

  /** `id` names a replay still running. */
  predicate Running(l: Ledger, id: nat)
  {
    id < |l.replays| && !l.replays[id].done && l.replays[id].next <= |l.replays[id].lines|
  }

  /** The record of the line a running replay is working on, if it is one. */
  function InFlight(r: Replay): multiset<Record>
  {
    if r.next < |r.lines| && r.lines[r.next].Entry? then multiset{r.lines[r.next].record} else multiset{}
  }

  /** One step; an action that is not possible leaves the ledger alone. */
  function Step(l: Ledger, a: Action): Ledger
  {
    match a
    case Finish(record) =>
      l.(pending := l.pending + multiset{record}, finalized := l.finalized + multiset{record})
    case Insert(record, commits) =>
      if record !in l.pending then l
      else if commits then l.(pending := l.pending - multiset{record}, db := l.db + multiset{record})
      else l.(pending := l.pending - multiset{record}, live := l.live + [Entry(record)])
    case StartReplay =>
      if l.live == [] then l else l.(live := [], replays := l.replays + [NewReplay(l.live)])
    case ReplayLine(id, commits) =>
      if !Running(l, id) || l.replays[id].next == |l.replays[id].lines| then l
      else
        var r := l.replays[id];
        l.(replays := l.replays[id := Process(r, commits)],
           db := l.db + if Inserts(r, commits) then multiset{r.lines[r.next].record} else multiset{})
    case EndReplay(id) =>
      if !Running(l, id) || l.replays[id].next < |l.replays[id].lines| then l
      else
        l.(replays := l.replays[id := l.replays[id].(done := true)], failed := l.failed + Leftover(l.replays[id]))
    case Interrupt(id, committed) =>
      if !Running(l, id) then l
      else
        var r := l.replays[id];
        var both := if committed then InFlight(r) else multiset{};
        l.(replays := l.replays[id := r.(done := true)], failed := l.failed + Leftover(r),
           db := l.db + both, doubled := l.doubled + both)
  }

  function Run(l: Ledger, actions: seq<Action>): Ledger
    decreases |actions|
  {
    if actions == [] then l else Run(Step(l, actions[0]), actions[1..])
  }

  const EMPTY := Ledger(multiset{}, multiset{}, [], [], [], multiset{}, multiset{})

  // ---------------------------------------------------------------- conservation

  ghost predicate ReplaysInv(replays: seq<Replay>)
  {
    forall i | 0 <= i < |replays| :: ReplayInv(replays[i])
  }

  ghost function InReplays(replays: seq<Replay>, x: Record): nat
    requires ReplaysInv(replays)
  {
    if replays == [] then 0
    else InReplays(replays[..|replays| - 1], x) + Outstanding(replays[|replays| - 1], x)
  }

  lemma {:induction false} InReplaysUpdate(replays: seq<Replay>, i: nat, r: Replay, x: Record)
    requires ReplaysInv(replays) && i < |replays| && ReplayInv(r)
    ensures InReplays(replays[i := r], x) + Outstanding(replays[i], x) == InReplays(replays, x) + Outstanding(r, x)
  {
    var n := |replays| - 1;
    var after := replays[i := r];
    if i == n {
      assert after[..n] == replays[..n];
    } else {
      assert after[..n] == replays[..n][i := r];
      InReplaysUpdate(replays[..n], i, r, x);
    }
  }

  /** The number of copies of a record, over every place it can be in. */
  ghost function Places(l: Ledger, x: Record): nat
    requires ReplaysInv(l.replays)
  {
    l.pending[x] + l.db[x] + Copies(l.live, x) + InReplays(l.replays, x) + Copies(l.failed, x)
  }

  /** Nothing is lost, and the only surplus is a record whose replay was cut off after its
      commit; that one is in both the database and the quarantine file. */
  ghost predicate Conserved(l: Ledger, x: Record)
  {
    && ReplaysInv(l.replays)
    && Places(l, x) == l.finalized[x] + l.doubled[x]
    && l.doubled[x] <= l.db[x]
    && l.doubled[x] <= Copies(l.failed, x)
  }

  lemma {:induction false} ReplayStepConserves(l: Ledger, id: nat, commits: bool, x: Record)
    requires Conserved(l, x) && Running(l, id) && l.replays[id].next < |l.replays[id].lines|
    ensures Conserved(Step(l, ReplayLine(id, commits)), x)
  {
    ProcessConserves(l.replays[id], commits, x);
    InReplaysUpdate(l.replays, id, Process(l.replays[id], commits), x);
  }

  /** Ending a replay, normally or not, moves what it still holds to quarantine. */
  lemma {:induction false} ClosingMovesOutstanding(l: Ledger, id: nat, x: Record)
    requires ReplaysInv(l.replays) && Running(l, id)
    ensures ReplaysInv(l.replays[id := l.replays[id].(done := true)])
    ensures InReplays(l.replays[id := l.replays[id].(done := true)], x)
            + Outstanding(l.replays[id], x) == InReplays(l.replays, x)
    ensures Copies(l.failed + Leftover(l.replays[id]), x) == Copies(l.failed, x) + Outstanding(l.replays[id], x)
    ensures InFlight(l.replays[id])[x] <= Outstanding(l.replays[id], x)
  {
    var r := l.replays[id];
    InReplaysUpdate(l.replays, id, r.(done := true), x);
    LeftoverIsOutstanding(r, x);
    CopiesConcat(l.failed, Leftover(r), x);
  }

  /** Taking the file away moves its lines into the new replay. */
  lemma {:induction false} StartConserves(l: Ledger, x: Record)
    requires Conserved(l, x)
    ensures Conserved(Step(l, StartReplay), x)
  {
    if l.live != [] {
      var r := NewReplay(l.live);
      assert (l.replays + [r])[..|l.replays|] == l.replays;
      assert r.lines[0..] == l.live;
    }
  }

  lemma {:induction false} InsertConserves(l: Ledger, record: Record, commits: bool, x: Record)
    requires Conserved(l, x)
    ensures Conserved(Step(l, Insert(record, commits)), x)
  {
    CopiesConcat(l.live, [Entry(record)], x);
  }

  lemma {:induction false} EndConserves(l: Ledger, id: nat, x: Record)
    requires Conserved(l, x) && Running(l, id)
    ensures Conserved(Step(l, EndReplay(id)), x)
  {
    ClosingMovesOutstanding(l, id, x);
  }

  lemma {:induction false} InterruptConserves(l: Ledger, id: nat, committed: bool, x: Record)
    requires Conserved(l, x) && Running(l, id)
    ensures Conserved(Step(l, Interrupt(id, committed)), x)
  {
    ClosingMovesOutstanding(l, id, x);
  }

  lemma {:induction false} StepConserves(l: Ledger, a: Action, x: Record)
    requires Conserved(l, x)
    ensures Conserved(Step(l, a), x)
  {
    match a
    case Finish(record) =>
    case Insert(record, commits) => InsertConserves(l, record, commits, x);
    case StartReplay => StartConserves(l, x);
    case ReplayLine(id, commits) =>
      if Running(l, id) && l.replays[id].next < |l.replays[id].lines| {
        ReplayStepConserves(l, id, commits, x);
      }
    case EndReplay(id) =>
      if Running(l, id) {
        EndConserves(l, id, x);
      }
    case Interrupt(id, committed) =>
      if Running(l, id) {
        InterruptConserves(l, id, committed, x);
      }
  }

  lemma {:induction false} RunConserves(l: Ledger, actions: seq<Action>, x: Record)
    requires Conserved(l, x)
    ensures Conserved(Run(l, actions), x)
    decreases |actions|
  {
    if actions != [] {
      StepConserves(l, actions[0], x);
      RunConserves(Step(l, actions[0]), actions[1..], x);
    }
  }

  /** No replay is cut off after the commit of the line it is working on. */
  predicate CleanCuts(actions: seq<Action>)
  {
    forall i | 0 <= i < |actions| :: !(actions[i].Interrupt? && actions[i].committed)
  }

  lemma {:induction false} CleanCutsDoubleNothing(l: Ledger, actions: seq<Action>)
    requires CleanCuts(actions)
    ensures Run(l, actions).doubled == l.doubled
    decreases |actions|
  {
    if actions != [] {
      assert !(actions[0].Interrupt? && actions[0].committed);
      CleanCutsDoubleNothing(Step(l, actions[0]), actions[1..]);
    }
  }

  /** How often the schedule finalizes a record. */
  function Finishes(actions: seq<Action>, x: Record): nat
  {
    if actions == [] then 0
    else (if actions[0] == Finish(x) then 1 else 0) + Finishes(actions[1..], x)
  }

  lemma {:induction false} FinishesAreFinalized(l: Ledger, actions: seq<Action>, x: Record)
    ensures Run(l, actions).finalized[x] == l.finalized[x] + Finishes(actions, x)
    decreases |actions|
  {
    if actions != [] {
      FinishesAreFinalized(Step(l, actions[0]), actions[1..], x);
    }
  }

  /** In every interleaving of finalizations, failed inserts and any number of replays, a record
      finalized once is in exactly one place; in general, in as many as it was finalized times. */
  lemma {:induction false} ExactlyOnePlace(actions: seq<Action>, x: Record)
    requires CleanCuts(actions)
    ensures ReplaysInv(Run(EMPTY, actions).replays)
    ensures Places(Run(EMPTY, actions), x) == Finishes(actions, x)
    ensures Finishes(actions, x) == 1 ==> Places(Run(EMPTY, actions), x) == 1
  {
    RunConserves(EMPTY, actions, x);
    CleanCutsDoubleNothing(EMPTY, actions);
    FinishesAreFinalized(EMPTY, actions, x);
  }

  /** With interruptions at any point: never lost, and a surplus copy means the record sits in
      both the database and quarantine. */
  lemma {:induction false} NeverLost(actions: seq<Action>, x: Record)
    ensures Conserved(Run(EMPTY, actions), x)
    ensures Finishes(actions, x) <= Places(Run(EMPTY, actions), x)
    ensures Finishes(actions, x) < Places(Run(EMPTY, actions), x) ==>
      x in Run(EMPTY, actions).db && Copies(Run(EMPTY, actions).failed, x) > 0
  {
    RunConserves(EMPTY, actions, x);
    FinishesAreFinalized(EMPTY, actions, x);
  }

  /** Exactly the cuts after a commit make a surplus copy, and one copy each. */
  lemma {:induction false} SurplusComesFromCuts(l: Ledger, a: Action, x: Record)
    requires Conserved(l, x)
    ensures Places(l, x) - l.finalized[x] <= Places(Step(l, a), x) - Step(l, a).finalized[x]
         <= Places(l, x) - l.finalized[x] + 1
    ensures Places(Step(l, a), x) - Step(l, a).finalized[x] > Places(l, x) - l.finalized[x]
       <==> a.Interrupt? && a.committed && Running(l, a.id) && InFlight(l.replays[a.id])[x] == 1
  {
    StepConserves(l, a, x);
  }

  lemma {:induction false} RunCons(l: Ledger, a: Action, rest: seq<Action>)
    ensures Run(l, [a] + rest) == Run(Step(l, a), rest)
  {
    assert ([a] + rest)[1..] == rest;
  }

  /** The insert of the only record fails and a replay takes its line up. */
  lemma {:induction false} LineTakenUp(x: Record, rest: seq<Action>)
    ensures Run(EMPTY, [Finish(x)] + ([Insert(x, false)] + ([StartReplay] + rest)))
         == Run(EMPTY.(replays := [NewReplay([Entry(x)])], finalized := multiset{x}), rest)
  {
    RunCons(EMPTY, Finish(x), [Insert(x, false)] + ([StartReplay] + rest));
    var finished := EMPTY.(pending := multiset{x}, finalized := multiset{x});
    assert Step(EMPTY, Finish(x)) == finished;
    RunCons(finished, Insert(x, false), [StartReplay] + rest);
    var written := EMPTY.(live := [Entry(x)], finalized := multiset{x});
    assert Step(finished, Insert(x, false)) == written;
    RunCons(written, StartReplay, rest);
    assert [] + [NewReplay([Entry(x)])] == [NewReplay([Entry(x)])];
  }

  /** A cut after the commit does put a record in two places: in this run it is finalized once, its
      insert fails, and the replay of its line is cut off once the line is committed. */
  lemma {:induction false} CutAfterCommitDoubles(x: Record)
    ensures var l := Run(EMPTY, [Finish(x), Insert(x, false), StartReplay, Interrupt(0, true)]);
      l.finalized[x] == 1 && l.db[x] == 1 && Copies(l.failed, x) == 1
  {
    var cut := [Interrupt(0, true)];
    assert [Finish(x), Insert(x, false), StartReplay, Interrupt(0, true)]
        == [Finish(x)] + ([Insert(x, false)] + ([StartReplay] + cut));
    LineTakenUp(x, cut);
    var taken := EMPTY.(replays := [NewReplay([Entry(x)])], finalized := multiset{x});
    assert cut == cut + [];
    RunCons(taken, Interrupt(0, true), []);
    ClosingMovesOutstanding(taken, 0, x);
    assert [Entry(x)][0..] == [Entry(x)] && [Entry(x)][1..] == [];
  }

  // ---------------------------------------------------------------- where each record is

  /** Whether action `a`, taken in `l`, commits a row for `x`: the insert of a pending request, a
      line of a running replay, or a line whose replay is cut off after its commit. */
  predicate CommitsRow(l: Ledger, a: Action, x: Record)
  {
    match a
    case Insert(record, commits) => commits && record == x && x in l.pending
    case ReplayLine(id, commits) => commits && Running(l, id) && AtLine(l.replays[id], x)
    case Interrupt(id, committed) => committed && Running(l, id) && AtLine(l.replays[id], x)
    case _ => false
  }

  /** The replay is about to process a line holding `x`. */
  predicate AtLine(r: Replay, x: Record)
  {
    r.next < |r.lines| && r.lines[r.next] == Entry(x)
  }

  /** The rows for `x` that a run commits. */
  function Commits(l: Ledger, actions: seq<Action>, x: Record): nat
    decreases |actions|
  {
    if actions == [] then 0
    else (if CommitsRow(l, actions[0], x) then 1 else 0) + Commits(Step(l, actions[0]), actions[1..], x)
  }

  /** What a step appends to the fallback file: the line of a pending record whose insert fails. */
  function FallsBack(l: Ledger, a: Action): seq<Line>
  {
    if a.Insert? && !a.commits && a.record in l.pending then [Entry(a.record)] else []
  }

  function Fallbacks(l: Ledger, actions: seq<Action>): seq<Line>
    decreases |actions|
  {
    if actions == [] then [] else FallsBack(l, actions[0]) + Fallbacks(Step(l, actions[0]), actions[1..])
  }

  /** What a step appends to quarantine: what a replay that ends, or is cut off, has not inserted. */
  function SetsAside(l: Ledger, a: Action): seq<Line>
  {
    if a.Interrupt? && Running(l, a.id) then Leftover(l.replays[a.id])
    else if a.EndReplay? && Running(l, a.id) && l.replays[a.id].next == |l.replays[a.id].lines| then
      Leftover(l.replays[a.id])
    else []
  }

  function Quarantined(l: Ledger, actions: seq<Action>): seq<Line>
    decreases |actions|
  {
    if actions == [] then [] else SetsAside(l, actions[0]) + Quarantined(Step(l, actions[0]), actions[1..])
  }

  lemma {:induction false} StepCommits(l: Ledger, a: Action, x: Record)
    ensures Step(l, a).db[x] == l.db[x] + if CommitsRow(l, a, x) then 1 else 0
  {
  }

  /** The database holds exactly the rows committed: in particular a committed record is there in
      all later states. */
  lemma {:induction false} DatabaseIsCommits(l: Ledger, actions: seq<Action>, x: Record)
    ensures Run(l, actions).db[x] == l.db[x] + Commits(l, actions, x)
    decreases |actions|
  {
    if actions != [] {
      StepCommits(l, actions[0], x);
      DatabaseIsCommits(Step(l, actions[0]), actions[1..], x);
    }
  }

  /** Everything ever taken away from the fallback file, replay by replay. */
  function Taken(replays: seq<Replay>): seq<Line>
  {
    if replays == [] then [] else Taken(replays[..|replays| - 1]) + replays[|replays| - 1].lines
  }

  /** ... and what is in it now. */
  function FileHistory(l: Ledger): seq<Line>
  {
    Taken(l.replays) + l.live
  }

  lemma {:induction false} TakenUpdate(replays: seq<Replay>, i: nat, r: Replay)
    requires i < |replays| && r.lines == replays[i].lines
    ensures Taken(replays[i := r]) == Taken(replays)
  {
    var n, after := |replays| - 1, replays[i := r];
    if i == n {
      assert after[..n] == replays[..n];
    } else {
      assert after[..n] == replays[..n][i := r];
      TakenUpdate(replays[..n], i, r);
    }
  }

  lemma {:induction false} StepExtendsFile(l: Ledger, a: Action)
    ensures FileHistory(Step(l, a)) == FileHistory(l) + FallsBack(l, a)
  {
    match a
    case StartReplay =>
      if l.live != [] {
        assert (l.replays + [NewReplay(l.live)])[..|l.replays|] == l.replays;
      }
    case ReplayLine(id, commits) =>
      if Running(l, id) && l.replays[id].next < |l.replays[id].lines| {
        TakenUpdate(l.replays, id, Process(l.replays[id], commits));
      }
    case EndReplay(id) =>
      if Running(l, id) {
        TakenUpdate(l.replays, id, l.replays[id].(done := true));
      }
    case Interrupt(id, committed) =>
      if Running(l, id) {
        TakenUpdate(l.replays, id, l.replays[id].(done := true));
      }
    case _ =>
  }

  /** The snapshots of all replays in order, followed by the fallback file, are exactly the lines of
      the inserts that failed, each once and in the order of the failures. */
  lemma {:induction false} FileIsFailedInserts(l: Ledger, actions: seq<Action>)
    ensures FileHistory(Run(l, actions)) == FileHistory(l) + Fallbacks(l, actions)
    decreases |actions|
  {
    if actions == [] {
      Appended(FileHistory(l), [], []);
    } else {
      var next := Step(l, actions[0]);
      StepExtendsFile(l, actions[0]);
      FileIsFailedInserts(next, actions[1..]);
      Appended(FileHistory(l), FallsBack(l, actions[0]), Fallbacks(next, actions[1..]));
    }
  }

  lemma {:induction false} Appended(file: seq<Line>, a: seq<Line>, b: seq<Line>)
    ensures (file + a) + b == file + (a + b) && file + [] == file
  {
  }

  /** The quarantine file holds exactly what ended replays had not inserted, replay after replay. */
  lemma {:induction false} QuarantineIsLeftovers(l: Ledger, actions: seq<Action>)
    ensures Run(l, actions).failed == l.failed + Quarantined(l, actions)
    decreases |actions|
  {
    if actions != [] {
      var first, rest := SetsAside(l, actions[0]), Quarantined(Step(l, actions[0]), actions[1..]);
      QuarantineIsLeftovers(Step(l, actions[0]), actions[1..]);
      assert Step(l, actions[0]).failed == l.failed + first;
      Appended(l.failed, first, rest);
    }
  }

  lemma {:induction false} RunConcat(l: Ledger, a: seq<Action>, b: seq<Action>)
    ensures Run(l, a + b) == Run(Run(l, a), b)
    decreases |a|
  {
    if a == [] {
      assert a + b == b;
    } else {
      assert (a + b)[1..] == a[1..] + b;
      RunConcat(Step(l, a[0]), a[1..], b);
    }
  }

  /** In every run, a record whose insert committed is in the database in all later states, and one
      whose insert failed is then the last line of the fallback file. */
  lemma {:induction false} InsertLands(before: seq<Action>, x: Record, commits: bool, after: seq<Action>)
    requires x in Run(EMPTY, before).pending
    ensures commits ==> x in Run(EMPTY, before + [Insert(x, true)] + after).db
    ensures Run(EMPTY, before + [Insert(x, commits)]).live
         == Run(EMPTY, before).live + if commits then [] else [Entry(x)]
    ensures Run(EMPTY, before + [Insert(x, commits)]).pending == Run(EMPTY, before).pending - multiset{x}
  {
    var l := Run(EMPTY, before);
    RunConcat(EMPTY, before, [Insert(x, commits)]);
    RunCons(l, Insert(x, commits), []);
    assert [Insert(x, commits)] + [] == [Insert(x, commits)];
    if commits {
      RunConcat(EMPTY, before + [Insert(x, true)], after);
      DatabaseIsCommits(Step(l, Insert(x, true)), after, x);
    }
  }

  /** No insert fails. */
  predicate InsertsCommit(actions: seq<Action>)
  {
    forall i | 0 <= i < |actions| :: actions[i].Insert? ==> actions[i].commits
  }

  /** While all inserts commit there is no fallback file, no replay and no quarantine. */
  lemma {:induction false} NoFailureNoFiles(l: Ledger, actions: seq<Action>)
    requires InsertsCommit(actions) && l.live == [] && l.replays == [] && l.failed == []
    ensures Run(l, actions).live == [] && Run(l, actions).replays == [] && Run(l, actions).failed == []
    decreases |actions|
  {
    if actions != [] {
      assert actions[0].Insert? ==> actions[0].commits;
      NoFailureNoFiles(Step(l, actions[0]), actions[1..]);
    }
  }
}
