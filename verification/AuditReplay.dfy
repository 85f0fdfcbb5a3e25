/** The replay of the fallback file (`replay_audit_fallback`) for every interruption point. */
module AuditReplay {
  import opened AuditLedger

  /** A cancellation while line `at` is being inserted; `committed` tells whether its commit went
      through first. */
  datatype Cut = NoCut | CutAt(at: nat, committed: bool)

  datatype Response = Response(replayed: nat, failed: nat)

  datatype Outcome = Completed(response: Response) | Interrupted

  /** Lines processed before the replay stops: all of them, or those before a cut at a record. */
  function StopsAt(lines: seq<Line>, cut: Cut): (n: nat)
    ensures n <= |lines|
  {
    if cut.CutAt? && cut.at < |lines| && lines[cut.at].Entry? then cut.at else |lines|
  }

  /** The replay after its first `n` lines, `commits(i)` being the database's answer for line i. */
  function After(lines: seq<Line>, commits: nat -> bool, n: nat): (r: Replay)
    requires n <= |lines|
    ensures r.lines == lines && r.next == n
  {
    if n == 0 then NewReplay(lines) else Process(After(lines, commits, n - 1), commits(n - 1))
  }

  /** Line `i` holds a record whose insert the replay saw commit. */
  predicate Counted(lines: seq<Line>, commits: nat -> bool, stop: nat, i: nat)
    requires i < |lines|
  {
    i < stop && lines[i].Entry? && commits(i)
  }

  /** The records inserted by the first `n` lines, in order. */
  function Inserted(lines: seq<Line>, commits: nat -> bool, n: nat): seq<Record>
    requires n <= |lines|
  {
    if n == 0 then []
    else Inserted(lines, commits, n - 1) + if Counted(lines, commits, n, n - 1) then [lines[n - 1].record] else []
  }

  /** What the database, the fallback file and the quarantine file hold. */
  datatype Contents = Contents(db: seq<Record>, exists': bool, live: seq<Line>, failed: seq<Line>)

  /** An insert puts its record in the database, or at the end of the fallback file, which it
      creates if need be; nothing else changes. */
  ghost predicate InsertDone(before: Contents, record: Record, commits: bool, after: Contents)
  {
    if commits then after == before.(db := before.db + [record])
    else after == before.(exists' := true, live := (if before.exists' then before.live else []) + [Entry(record)])
  }

  class AuditStore {
    var db: seq<Record>
    var exists': bool
    var live: seq<Line>
    var failed: seq<Line>

    ghost function Value(): Contents
      reads this
    {
      Contents(db, exists', live, failed)
    }

    constructor ()
      ensures db == [] && !exists' && live == [] && failed == []
    {
      db, exists', live, failed := [], false, [], [];
    }

    /** `write_audit_fallback`: appends one line, creating the file if need be. */
    method WriteFallback(record: Record)
      modifies this`exists', this`live
      ensures exists' && live == old(if exists' then live else []) + [Entry(record)]
    {
      if !exists' {
        live := [];
      }
      exists' := true;
      live := live + [Entry(record)];
    }

    /** `_insert_audit_log`: the record ends up in the database or in the fallback file. */
    method InsertAuditLog(record: Record, commits: bool)
      modifies this`db, this`exists', this`live
      ensures InsertDone(old(Value()), record, commits, Value())
    {
      if commits {
        db := db + [record];
      } else {
        WriteFallback(record);
      }
    }

    /** `replay_audit_fallback`: takes the file away, inserts line by line, and quarantines what
        was not inserted; whatever is appended to the file afterwards is left for the next replay. */
    method Replay(commits: nat -> bool, cut: Cut) returns (outcome: Outcome)
      modifies this`db, this`exists', this`live, this`failed
      ensures !old(exists') ==>
        outcome == Completed(Response(0, 0)) && db == old(db) && failed == old(failed) && !exists' && live == old(live)
      ensures old(exists') ==>
        var lines, stop := old(live), StopsAt(old(live), cut);
        && !exists' && live == []
        && db == old(db) + Inserted(lines, commits, stop)
                 + (if stop < |lines| && cut.committed then [lines[stop].record] else [])
        && failed == old(failed) + Leftover(After(lines, commits, stop))
        && outcome == if stop < |lines| then Interrupted
                      else Completed(Response(After(lines, commits, stop).replayed, After(lines, commits, stop).failed))
    {
      if !exists' {
        return Completed(Response(0, 0));
      }
      var lines := live;
      exists', live := false, [];
      var rows, r, interrupted := ProcessSnapshot(lines, commits, cut);
      db := db + rows;
      failed := failed + (r.quarantine + NonBlank(lines[r.next..]));
      outcome := if interrupted then Interrupted else Completed(Response(r.replayed, r.failed));
    }
  }

  /** The loop over a snapshot: the rows it commits, and where it stands when it ends or is cut. */
  method ProcessSnapshot(lines: seq<Line>, commits: nat -> bool, cut: Cut)
    returns (rows: seq<Record>, r: Replay, interrupted: bool)
    ensures r == After(lines, commits, StopsAt(lines, cut))
    ensures interrupted <==> StopsAt(lines, cut) < |lines|
    ensures rows == Inserted(lines, commits, StopsAt(lines, cut))
                    + if interrupted && cut.committed then [lines[StopsAt(lines, cut)].record] else []
  {
    var replayed, failed, quarantine, index := 0, 0, [], 0;
    rows := [];
    while index < |lines|
      invariant index <= StopsAt(lines, cut)
      invariant After(lines, commits, index) == Replay(lines, index, quarantine, replayed, failed, false)
      invariant rows == Inserted(lines, commits, index)
    {
      var line := lines[index];
      if line.Entry? {
        if cut.CutAt? && cut.at == index {
          if cut.committed {
            rows := rows + [line.record];
          }
          return rows, Replay(lines, index, quarantine, replayed, failed, false), true;
        }
        if commits(index) {
          rows := rows + [line.record];
          replayed := replayed + 1;
        } else {
          failed, quarantine := failed + 1, quarantine + [line];
        }
      } else if line.Garbage? {
        failed, quarantine := failed + 1, quarantine + [line];
      }
      index := index + 1;
    }
    r, interrupted := Replay(lines, index, quarantine, replayed, failed, false), false;
  }

  // ---------------------------------------------------------------- what the replay guarantees

  /** The lines picked out by ascending positions. */
  function Pick(lines: seq<Line>, positions: seq<nat>): seq<Line>
    requires forall i | 0 <= i < |positions| :: positions[i] < |lines|
  {
    seq(|positions|, i requires 0 <= i < |positions| => lines[positions[i]])
  }

  lemma {:induction false} PickSnoc(lines: seq<Line>, positions: seq<nat>, p: nat)
    requires p < |lines| && forall i | 0 <= i < |positions| :: positions[i] < |lines|
    ensures Pick(lines, positions + [p]) == Pick(lines, positions) + [lines[p]]
  {
  }

  /** Positions, ascending, of the non-blank lines below `n` that were not counted as inserted. */
  function Kept(lines: seq<Line>, commits: nat -> bool, stop: nat, n: nat): (ps: seq<nat>)
    requires n <= |lines|
    ensures forall i | 0 <= i < |ps| :: ps[i] < n
  {
    if n == 0 then []
    else
      var before := Kept(lines, commits, stop, n - 1);
      if lines[n - 1] != Blank && !Counted(lines, commits, stop, n - 1) then before + [n - 1] else before
  }

  lemma {:induction false} KeptAscending(lines: seq<Line>, commits: nat -> bool, stop: nat, n: nat)
    requires n <= |lines|
    ensures forall i, j | 0 <= i < j < |Kept(lines, commits, stop, n)| ::
              Kept(lines, commits, stop, n)[i] < Kept(lines, commits, stop, n)[j]
  {
    if n > 0 {
      KeptAscending(lines, commits, stop, n - 1);
    }
  }

  lemma {:induction false} KeptMembers(lines: seq<Line>, commits: nat -> bool, stop: nat, n: nat, p: nat)
    requires n <= |lines| && p < |lines|
    ensures p in Kept(lines, commits, stop, n) <==> p < n && lines[p] != Blank && !Counted(lines, commits, stop, p)
  {
    if n > 0 {
      KeptMembers(lines, commits, stop, n - 1, p);
    }
  }

  /** Up to the stop, the lines set aside are the kept ones, and the counters count. */
  lemma {:induction false} SetAside(lines: seq<Line>, commits: nat -> bool, stop: nat, n: nat)
    requires n <= stop <= |lines|
    ensures After(lines, commits, n).quarantine == Pick(lines, Kept(lines, commits, stop, n))
    ensures After(lines, commits, n).replayed == |Inserted(lines, commits, n)|
    ensures After(lines, commits, n).failed == |Kept(lines, commits, stop, n)|
  {
    if n > 0 {
      SetAside(lines, commits, stop, n - 1);
      PickSnoc(lines, Kept(lines, commits, stop, n - 1), n - 1);
    }
  }

  /** From the stop on, every non-blank line is kept. */
  lemma {:induction false} RestIsKept(lines: seq<Line>, commits: nat -> bool, stop: nat, n: nat)
    requires stop <= n <= |lines|
    ensures Pick(lines, Kept(lines, commits, stop, n)) + NonBlank(lines[n..])
         == Pick(lines, Kept(lines, commits, stop, |lines|))
    decreases |lines| - n
  {
    if n < |lines| {
      RestIsKept(lines, commits, stop, n + 1);
      PickSnoc(lines, Kept(lines, commits, stop, n), n);
      assert lines[n..][1..] == lines[n + 1..];
    }
  }

  /** For every interruption point the quarantine gets exactly the non-blank lines that were not
      counted as inserted, in file order. With `StopsAt`, the only line that can be both inserted
      and quarantined is the one in flight at the cut. */
  lemma {:induction false} QuarantineKeepsFileOrder(lines: seq<Line>, commits: nat -> bool, cut: Cut)
    ensures var stop := StopsAt(lines, cut);
      Leftover(After(lines, commits, stop)) == Pick(lines, Kept(lines, commits, stop, |lines|))
  {
    var stop := StopsAt(lines, cut);
    SetAside(lines, commits, stop, stop);
    RestIsKept(lines, commits, stop, stop);
  }

  lemma {:induction false} CountsAddUp(lines: seq<Line>, commits: nat -> bool, n: nat)
    requires n <= |lines|
    ensures After(lines, commits, n).replayed + After(lines, commits, n).failed == |NonBlank(lines[..n])|
  {
    if n > 0 {
      CountsAddUp(lines, commits, n - 1);
      NonBlankSnoc(lines[..n - 1], lines[n - 1]);
      assert lines[..n] == lines[..n - 1] + [lines[n - 1]];
    }
  }

  lemma {:induction false} NonBlankSnoc(lines: seq<Line>, line: Line)
    ensures NonBlank(lines + [line]) == NonBlank(lines) + if line == Blank then [] else [line]
  {
    if lines != [] {
      assert (lines + [line])[1..] == lines[1..] + [line];
      NonBlankSnoc(lines[1..], line);
    }
  }

  /** On normal return the two counters account for every non-blank line, and are the numbers of
      records inserted and of lines quarantined. */
  lemma {:induction false} CompletedReplayAccounts(lines: seq<Line>, commits: nat -> bool)
    ensures var r := After(lines, commits, |lines|);
      && r.replayed + r.failed == |NonBlank(lines)|
      && r.replayed == |Inserted(lines, commits, |lines|)|
      && r.failed == |Leftover(r)|
  {
    CountsAddUp(lines, commits, |lines|);
    assert lines[..|lines|] == lines && lines[|lines|..] == [];
    SetAside(lines, commits, |lines|, |lines|);
  }

  /** Each non-blank line is counted as inserted or quarantined, never both; nothing else is written. */
  lemma {:induction false} InsertedOrQuarantined(lines: seq<Line>, commits: nat -> bool, cut: Cut, p: nat)
    requires p < |lines| && lines[p] != Blank
    ensures Counted(lines, commits, StopsAt(lines, cut), p)
       <==> p !in Kept(lines, commits, StopsAt(lines, cut), |lines|)
    ensures StopsAt(lines, cut) < |lines| ==> StopsAt(lines, cut) in Kept(lines, commits, StopsAt(lines, cut), |lines|)
  {
    var stop := StopsAt(lines, cut);
    KeptMembers(lines, commits, stop, |lines|, p);
    if stop < |lines| {
      KeptMembers(lines, commits, stop, |lines|, stop);
    }
  }

  // ---------------------------------------------------------------- the same replay as ledger steps

  function LineSteps(id: nat, commits: nat -> bool, n: nat): seq<Action>
  {
    if n == 0 then [] else LineSteps(id, commits, n - 1) + [ReplayLine(id, commits(n - 1))]
  }

  lemma {:induction false} RunSnoc(l: Ledger, actions: seq<Action>, a: Action)
    ensures Run(l, actions + [a]) == Step(Run(l, actions), a)
    decreases |actions|
  {
    if actions == [] {
      assert actions + [a] == [a] && [a][1..] == [];
    } else {
      assert (actions + [a])[1..] == actions[1..] + [a];
      RunSnoc(Step(l, actions[0]), actions[1..], a);
    }
  }

  /** The ledger after `n` line steps of its replay number 0. */
  function AfterSteps(l: Ledger, commits: nat -> bool, n: nat): Ledger
  {
    if n == 0 then l else Step(AfterSteps(l, commits, n - 1), ReplayLine(0, commits(n - 1)))
  }

  lemma {:induction false} AfterStepsIsRun(l: Ledger, commits: nat -> bool, n: nat)
    ensures AfterSteps(l, commits, n) == Run(l, LineSteps(0, commits, n))
  {
    if n > 0 {
      AfterStepsIsRun(l, commits, n - 1);
      RunSnoc(l, LineSteps(0, commits, n - 1), ReplayLine(0, commits(n - 1)));
    }
  }

  /** The ledger holds the loop's state after `n` lines, on top of `db` and `failed`. */
  ghost predicate InStep(l: Ledger, lines: seq<Line>,
                         commits: nat -> bool, n: nat, x: Record, db: nat, failed: seq<Line>)
    requires n <= |lines|
  {
    && l.replays == [After(lines, commits, n)]
    && l.db[x] == db + Occurrences(Inserted(lines, commits, n), x)
    && l.failed == failed
  }

  lemma {:induction false} StartsInStep(l: Ledger, lines: seq<Line>, commits: nat -> bool, x: Record)
    requires l.replays == [NewReplay(lines)]
    ensures InStep(l, lines, commits, 0, x, l.db[x], l.failed)
  {
  }

  lemma {:induction false} StaysInStep(l: Ledger, lines: seq<Line>,
                                       commits: nat -> bool, n: nat, x: Record, db: nat, failed: seq<Line>)
    requires n < |lines| && InStep(l, lines, commits, n, x, db, failed)
    ensures InStep(Step(l, ReplayLine(0, commits(n))), lines, commits, n + 1, x, db, failed)
  {
    NotDone(lines, commits, n);
    var r := After(lines, commits, n);
    OneLineStep(l, r, commits(n));
    assert After(lines, commits, n + 1) == Process(r, commits(n));
    if Inserts(r, commits(n)) {
      OccurrencesSnoc(Inserted(lines, commits, n), lines[n].record, x);
      assert Inserted(lines, commits, n + 1) == Inserted(lines, commits, n) + [lines[n].record];
    } else {
      assert Inserted(lines, commits, n + 1) == Inserted(lines, commits, n);
    }
  }

  /** The loop and the ledger's replay steps do the same: processing lines one step at a time
      leaves the replay in the loop's state and the loop's rows in the database. */
  lemma {:induction false} LoopIsLedgerSteps(l: Ledger, lines: seq<Line>, commits: nat -> bool, n: nat, x: Record)
    requires l.replays == [NewReplay(lines)] && n <= |lines|
    ensures InStep(AfterSteps(l, commits, n), lines, commits, n, x, l.db[x], l.failed)
  {
    if n == 0 {
      StartsInStep(l, lines, commits, x);
    } else {
      var before := AfterSteps(l, commits, n - 1);
      LoopIsLedgerSteps(l, lines, commits, n - 1, x);
      StaysInStep(before, lines, commits, n - 1, x, l.db[x], l.failed);
      assert AfterSteps(l, commits, n) == Step(before, ReplayLine(0, commits(n - 1)));
    }
  }

  function Occurrences(rows: seq<Record>, x: Record): nat
  {
    if rows == [] then 0 else Occurrences(rows[..|rows| - 1], x) + if rows[|rows| - 1] == x then 1 else 0
  }

  lemma {:induction false} OccurrencesSnoc(rows: seq<Record>, row: Record, x: Record)
    ensures Occurrences(rows + [row], x) == Occurrences(rows, x) + if row == x then 1 else 0
  {
    assert (rows + [row])[..|rows|] == rows;
  }

  lemma {:induction false} OneLineStep(l: Ledger, r: AuditLedger.Replay, commits: bool)
    requires l.replays == [r] && !r.done && r.next < |r.lines|
    ensures Step(l, ReplayLine(0, commits)).replays == [Process(r, commits)]
    ensures Step(l, ReplayLine(0, commits)).db
         == l.db + if Inserts(r, commits) then multiset{r.lines[r.next].record} else multiset{}
    ensures Step(l, ReplayLine(0, commits)).failed == l.failed
  {
  }

  /** How a replay that stops at `stop` ends. */
  function FinalStep(lines: seq<Line>, cut: Cut): Action
  {
    if StopsAt(lines, cut) < |lines| then Interrupt(0, cut.committed) else EndReplay(0)
  }

  /** A whole replay, cut or not, is a run of ledger steps: it inserts the same rows and
      quarantines the same lines. */
  lemma {:induction false} ReplayIsLedgerRun(l: Ledger, lines: seq<Line>, commits: nat -> bool, cut: Cut, x: Record)
    requires l.replays == [NewReplay(lines)]
    ensures var stop := StopsAt(lines, cut);
      var l' := Run(l, LineSteps(0, commits, stop) + [FinalStep(lines, cut)]);
      && l'.failed == l.failed + Leftover(After(lines, commits, stop))
      && l'.db[x] == l.db[x] + Occurrences(Inserted(lines, commits, stop), x)
                     + (if stop < |lines| && cut.committed && lines[stop].record == x then 1 else 0)
  {
    var stop := StopsAt(lines, cut);
    AfterStepsIsRun(l, commits, stop);
    LoopIsLedgerSteps(l, lines, commits, stop, x);
    NotDone(lines, commits, stop);
    RunSnoc(l, LineSteps(0, commits, stop), FinalStep(lines, cut));
    OneFinalStep(AfterSteps(l, commits, stop), After(lines, commits, stop), cut, x);
  }

  lemma {:induction false} OneFinalStep(l: Ledger, r: AuditLedger.Replay, cut: Cut, x: Record)
    requires l.replays == [r] && !r.done && r.next == StopsAt(r.lines, cut)
    ensures Step(l, FinalStep(r.lines, cut)).failed == l.failed + Leftover(r)
    ensures Step(l, FinalStep(r.lines, cut)).db[x]
         == l.db[x] + if r.next < |r.lines| && cut.committed && r.lines[r.next].record == x then 1 else 0
  {
  }

  lemma {:induction false} NotDone(lines: seq<Line>, commits: nat -> bool, n: nat)
    requires n <= |lines|
    ensures !After(lines, commits, n).done
  {
    if n > 0 {
      NotDone(lines, commits, n - 1);
    }
  }

  /** The ledger says of database and files what the store holds. */
  ghost predicate Describes(l: Ledger, v: Contents)
  {
    && (forall x :: l.db[x] == Occurrences(v.db, x))
    && l.live == (if v.exists' then v.live else [])
    && l.failed == v.failed
  }

  /** The insert of a finalized request is the ledger's insert step. */
  lemma {:induction false} InsertIsLedgerStep(l: Ledger, before: Contents, record: Record, commits: bool,
                                              after: Contents)
    requires Describes(l, before) && record in l.pending && InsertDone(before, record, commits, after)
    ensures Describes(Step(l, Insert(record, commits)), after)
  {
    forall x
      ensures Step(l, Insert(record, commits)).db[x] == Occurrences(after.db, x)
    {
      OccurrencesSnoc(before.db, record, x);
    }
  }

  /** Taking the fallback file away is the ledger's start of a replay, which holds the whole file. */
  lemma {:induction false} TakingIsLedgerStep(l: Ledger, before: Contents)
    requires Describes(l, before) && before.exists' && before.live != []
    ensures Describes(Step(l, StartReplay), before.(exists' := false, live := []))
    ensures Step(l, StartReplay).replays == l.replays + [NewReplay(before.live)]
  {
  }
}
