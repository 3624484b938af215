/**
 The crash-resumable checkpoint log of the retrieval A/B run
 (tools/cs_interview_rag_ab_eval.py): an append-only file of case results, read back when a run
 starts, appended to as cases complete in any order, and compacted when a run completes.
 */
module Checkpoint {
  import opened Wrappers

  // ----- cases, rows and the log -----

  /** The SHA-256 fingerprint of a case, taken to be free of collisions. */
  datatype Fingerprint = Fingerprint(id: string, query: string, expected: string, state: string)

  datatype Case = Case(id: string, query: string, expected: string, state: string,
                       dataset: string, kind: string, review: string)

  datatype Row = Row(id: string, fingerprint: Fingerprint, expected: string,
                     dataset: string, kind: string, review: string, variants: string)

  function CaseFingerprint(c: Case): Fingerprint {
    Fingerprint(c.id, c.query, c.expected, c.state)
  }

  /** The fingerprint tells cases apart by these four fields, and by nothing else. */
  lemma {:induction false} FingerprintCovers(c: Case, d: Case)
    ensures CaseFingerprint(c) == CaseFingerprint(d)
       <==> c.id == d.id && c.query == d.query && c.expected == d.expected && c.state == d.state
  {
  }

  /** The retrieval service, deterministic: what the four variants return for a query on a dataset. */
  datatype Service = Service(retrieve: (Fingerprint, string) -> string)

  function EvaluateCase(service: Service, c: Case): Row {
    Row(c.id, CaseFingerprint(c), c.expected, c.dataset, c.kind, c.review,
        service.retrieve(CaseFingerprint(c), c.dataset))
  }

  /** A row tells its case by everything but what only the fingerprint has of it. */
  lemma {:induction false} RowTells(service: Service, c: Case)
    ensures var row := EvaluateCase(service, c);
            && row.id == c.id && row.expected == c.expected && row.dataset == c.dataset && row.kind == c.kind
            && row.review == c.review && row.fingerprint == CaseFingerprint(c)
            && forall d :: CaseFingerprint(d) == CaseFingerprint(c) && d.dataset == c.dataset ==>
                 EvaluateCase(service, d).variants == row.variants
  {
  }

  /** One line of the file: blank, not JSON, JSON that is not a row with an id, or a row. */
  datatype Line = Blank | Broken | Foreign | Entry(row: Row)

  type Log = seq<Line>

  // ----- what a log means -----

  /** The row each id last wrote; rows with an empty id are skipped. */
  ghost function LastRows(log: Log): map<string, Row> {
    if log == [] then map[]
    else
      var earlier, line := LastRows(log[..|log| - 1]), log[|log| - 1];
      if line.Entry? && line.row.id != "" then earlier[line.row.id := line.row] else earlier
  }

  predicate Readable(log: Log) {
    Broken !in log
  }

  /** `row` is the last row of its id in the log. */
  ghost predicate IsLast(log: Log, row: Row) {
    exists k :: 0 <= k < |log| && log[k] == Entry(row)
      && forall j :: k < j < |log| ==> !(log[j].Entry? && log[j].row.id == row.id)
  }

  lemma {:induction false} LastRowsAreLast(log: Log, id: string)
    ensures id in LastRows(log) <==> id != "" && exists r: Row :: r.id == id && IsLast(log, r)
    ensures id in LastRows(log) ==> LastRows(log)[id].id == id && IsLast(log, LastRows(log)[id])
  {
    if log != [] {
      var n := |log| - 1;
      var init, line := log[..n], log[n];
      LastRowsAreLast(init, id);
      if line.Entry? && line.row.id == id {
        assert log[n] == Entry(line.row);
        assert IsLast(log, line.row);
      } else {
        forall r: Row | r.id == id ensures IsLast(init, r) <==> IsLast(log, r) {
          IsLastExtends(init, line, r);
          assert init + [line] == log;
        }
      }
    }
  }

  lemma IsLastExtends(init: Log, line: Line, r: Row)
    requires !(line.Entry? && line.row.id == r.id)
    ensures IsLast(init, r) <==> IsLast(init + [line], r)
  {
    var log := init + [line];
    if IsLast(init, r) {
      var k :| 0 <= k < |init| && init[k] == Entry(r)
        && forall j :: k < j < |init| ==> !(init[j].Entry? && init[j].row.id == r.id);
      assert log[k] == Entry(r);
    }
    if IsLast(log, r) {
      var k :| 0 <= k < |log| && log[k] == Entry(r)
        && forall j :: k < j < |log| ==> !(log[j].Entry? && log[j].row.id == r.id);
      assert k < |init| && init[k] == Entry(r);
      forall j | k < j < |init| ensures !(init[j].Entry? && init[j].row.id == r.id) {
        assert log[j] == init[j];
      }
    }
  }

  // ----- one run -----

  /** What the environment decides in one run: the flag, the order of completions, and where it stops. */
  datatype Ending = RunsOn | CrashesWhileEvaluating | CrashesInsideRow | CrashesAfterCompaction

  /** The run does not get to the end of the evaluations. */
  predicate StopsEarly(ending: Ending) {
    ending == CrashesWhileEvaluating || ending == CrashesInsideRow
  }

  datatype Session =
    Session(cases: seq<Case>, noResume: bool, completed: seq<Case>, failing: set<string>, ending: Ending)

  datatype Outcome = Crashed | BadCheckpoint | Failed | Completed(details: seq<Row>)

  predicate UniqueIds(cases: seq<Case>) {
    forall i, j :: 0 <= i < j < |cases| ==> cases[i].id != cases[j].id
  }

  /** The rows taken over from the log: same id, same fingerprint. */
  function Reused(rows: map<string, Row>, cases: seq<Case>): map<string, Row> {
    map c | c in cases && c.id in rows && rows[c.id].fingerprint == CaseFingerprint(c) :: c.id := rows[c.id]
  }

  function Pending(reused: map<string, Row>, cases: seq<Case>): seq<Case> {
    if cases == [] then []
    else if cases[0].id in reused then Pending(reused, cases[1..])
    else [cases[0]] + Pending(reused, cases[1..])
  }

  ghost function Rows(log: Log, s: Session): map<string, Row> {
    if s.noResume then map[] else LastRows(log)
  }

  ghost function Todo(log: Log, s: Session): seq<Case> {
    Pending(Reused(Rows(log, s), s.cases), s.cases)
  }

  /** Completions come from the pending cases, each once; without a crash every pending case completes. */
  ghost predicate Feasible(log: Log, s: Session) {
    && UniqueIds(s.cases)
    && UniqueIds(s.completed)
    && (forall c :: c in s.completed ==> c in Todo(log, s))
    && (!StopsEarly(s.ending) ==> forall c :: c in Todo(log, s) ==> c in s.completed)
  }

  /** The rows written for the completions that did not fail. */
  function Written(service: Service, completed: seq<Case>, failing: set<string>): seq<Row> {
    if completed == [] then []
    else
      var earlier, c := Written(service, completed[..|completed| - 1], failing), completed[|completed| - 1];
      if c.id in failing then earlier else earlier + [EvaluateCase(service, c)]
  }

  function Entries(rows: seq<Row>): Log {
    seq(|rows|, i requires 0 <= i < |rows| => Entry(rows[i]))
  }

  /** The result table after the completions: reused rows overlaid with written ones. */
  function Overlay(rows: map<string, Row>, written: seq<Row>): map<string, Row> {
    if written == [] then rows
    else
      var last := written[|written| - 1];
      Overlay(rows, written[..|written| - 1])[last.id := last]
  }

  predicate AnyFails(completed: seq<Case>, failing: set<string>) {
    exists c :: c in completed && c.id in failing
  }

  ghost predicate CannotStart(log: Log, s: Session) {
    !s.noResume && !Readable(log)
  }

  ghost function LogBeforeCompaction(service: Service, log: Log, s: Session): Log {
    log + Entries(Written(service, s.completed, s.failing)) + Torn(s)
  }

  /**
   What is left of the row that a crash cut off. The next row, if any, continues that line, but the
   line is no JSON either way.
   */
  function Torn(s: Session): Log {
    if s.ending == CrashesInsideRow then [Broken] else []
  }

  ghost function Table(service: Service, log: Log, s: Session): map<string, Row> {
    Overlay(Reused(Rows(log, s), s.cases), Written(service, s.completed, s.failing))
  }

  ghost predicate Compacts(log: Log, s: Session) {
    !CannotStart(log, s) && !StopsEarly(s.ending) && !AnyFails(s.completed, s.failing)
  }

  /** What the run should hand on: for each case in order its reused row, or its evaluation. */
  ghost function Details(service: Service, log: Log, s: Session): seq<Row> {
    var reused := Reused(Rows(log, s), s.cases);
    seq(|s.cases|, i requires 0 <= i < |s.cases| =>
      if s.cases[i].id in reused then reused[s.cases[i].id] else EvaluateCase(service, s.cases[i]))
  }

  ghost function LogAfter(service: Service, log: Log, s: Session): Log {
    if CannotStart(log, s) then log
    else if Compacts(log, s) then Entries(Details(service, log, s))
    else LogBeforeCompaction(service, log, s)
  }

  // ----- lemmas about one run -----

  lemma {:induction false} PendingMembers(reused: map<string, Row>, cases: seq<Case>, c: Case)
    ensures c in Pending(reused, cases) <==> c in cases && c.id !in reused
  {
    if cases != [] {
      PendingMembers(reused, cases[1..], c);
      assert c in cases <==> c == cases[0] || c in cases[1..];
    }
  }

  lemma {:induction false} ReusedKeys(rows: map<string, Row>, cases: seq<Case>, c: Case)
    requires UniqueIds(cases) && c in cases
    ensures c.id in Reused(rows, cases) <==> c.id in rows && rows[c.id].fingerprint == CaseFingerprint(c)
    ensures c.id in Reused(rows, cases) ==> Reused(rows, cases)[c.id] == rows[c.id]
  {
  }

  lemma {:induction false} WrittenMembers(service: Service, completed: seq<Case>, failing: set<string>, r: Row)
    ensures r in Written(service, completed, failing)
       <==> exists c :: c in completed && c.id !in failing && r == EvaluateCase(service, c)
  {
    if completed != [] {
      var n := |completed| - 1;
      WrittenMembers(service, completed[..n], failing, r);
      assert completed == completed[..n] + [completed[n]];
    }
  }

  lemma {:induction false} OverlayAt(
      service: Service, rows: map<string, Row>, completed: seq<Case>, failing: set<string>, c: Case)
    requires UniqueIds(completed) && c in completed && c.id !in failing
    ensures var table := Overlay(rows, Written(service, completed, failing));
            c.id in table && table[c.id] == EvaluateCase(service, c)
  {
    var n := |completed| - 1;
    var earlier := completed[..n];
    assert completed == earlier + [completed[n]];
    if c != completed[n] {
      assert c in earlier;
      OverlayAt(service, rows, earlier, failing, c);
    }
    if completed[n].id !in failing {
      var written := Written(service, completed, failing);
      assert written[..|written| - 1] == Written(service, earlier, failing);
    }
  }

  lemma {:induction false} OverlayKeeps(
      service: Service, rows: map<string, Row>, completed: seq<Case>, failing: set<string>, id: string)
    requires forall c :: c in completed ==> c.id != id
    ensures var table := Overlay(rows, Written(service, completed, failing));
            (id in table <==> id in rows) && (id in rows ==> table[id] == rows[id])
  {
    if completed != [] {
      var n := |completed| - 1;
      var earlier := completed[..n];
      assert completed == earlier + [completed[n]];
      OverlayKeeps(service, rows, earlier, failing, id);
      if completed[n].id !in failing {
        var written := Written(service, completed, failing);
        assert written[..|written| - 1] == Written(service, earlier, failing);
        assert completed[n] in completed;
      }
    }
  }

  /** Looking every case up in the table gives the promised details. */
  lemma {:induction false} TableGivesDetails(service: Service, log: Log, s: Session, i: nat)
    requires Feasible(log, s) && Compacts(log, s) && i < |s.cases|
    ensures s.cases[i].id in Table(service, log, s)
    ensures Table(service, log, s)[s.cases[i].id] == Details(service, log, s)[i]
  {
    var c, reused := s.cases[i], Reused(Rows(log, s), s.cases);
    PendingMembers(reused, s.cases, c);
    if c.id in reused {
      forall d | d in s.completed ensures d.id != c.id {
        PendingMembers(reused, s.cases, d);
      }
      OverlayKeeps(service, reused, s.completed, s.failing, c.id);
    } else {
      assert c in s.completed;
      OverlayAt(service, reused, s.completed, s.failing, c);
    }
  }

  lemma {:induction false} WrittenStep(service: Service, completed: seq<Case>, n: nat, failing: set<string>)
    requires n < |completed|
    ensures Written(service, completed[..n + 1], failing)
         == var earlier := Written(service, completed[..n], failing);
            if completed[n].id in failing then earlier else earlier + [EvaluateCase(service, completed[n])]
    ensures AnyFails(completed[..n + 1], failing) <==> AnyFails(completed[..n], failing) || completed[n].id in failing
  {
    assert completed[..n + 1] == completed[..n] + [completed[n]];
    assert completed[..n + 1][..n] == completed[..n];
  }

  lemma {:induction false} OverlayStep(rows: map<string, Row>, written: seq<Row>, row: Row)
    ensures Overlay(rows, written + [row]) == Overlay(rows, written)[row.id := row]
  {
    assert (written + [row])[..|written|] == written;
  }

  lemma {:induction false} EntriesStep(log: Log, written: seq<Row>, row: Row)
    ensures log + Entries(written + [row]) == log + Entries(written) + [Entry(row)]
  {
  }

  // ----- the program -----

  class Evaluator {
    const service: Service
    var log: Log

    constructor (service: Service, log: Log)
      ensures this.service == service && this.log == log
    {
      this.service := service;
      this.log := log;
    }

    /** `_load_checkpoint`: the error carries the number of the first line that is not JSON. */
    method LoadCheckpoint() returns (loaded: Result<map<string, Row>, nat>)
      ensures loaded.Ok? <==> Readable(log)
      ensures loaded.Ok? ==> loaded.value == LastRows(log)
      ensures loaded.Err? ==>
                1 <= loaded.error <= |log| && log[loaded.error - 1] == Broken && Readable(log[..loaded.error - 1])
    {
      var rows := map[];
      for n := 0 to |log|
        invariant Readable(log[..n])
        invariant rows == LastRows(log[..n])
      {
        assert log[..n + 1][..n] == log[..n];
        match log[n]
        case Broken =>
          return Err(n + 1);
        case Entry(row) =>
          if row.id != "" {
            rows := rows[row.id := row];
          }
        case _ =>
      }
      assert log[..|log|] == log;
      return Ok(rows);
    }

    /** One call of `main`: load, evaluate what is pending, then raise or compact. */
    method Run(s: Session) returns (outcome: Outcome)
      requires Feasible(log, s)
      modifies this
      ensures log == LogAfter(service, old(log), s)
      ensures outcome.BadCheckpoint? <==> CannotStart(old(log), s)
      ensures outcome.Completed? <==> Compacts(old(log), s) && s.ending == RunsOn
      ensures outcome.Completed? ==> outcome.details == Details(service, old(log), s)
      ensures outcome.Failed?
         <==> !CannotStart(old(log), s) && !StopsEarly(s.ending) && AnyFails(s.completed, s.failing)
    {
      hide Reused, LastRows, Overlay, Written, Entries, Details, Pending, AnyFails;
      var rows := map[];
      if !s.noResume {
        var loaded := LoadCheckpoint();
        if loaded.Err? {
          return BadCheckpoint;
        }
        rows := loaded.value;
      }
      var table := Reused(rows, s.cases);
      var failed;
      table, failed := EvaluatePending(s, table);
      log := log + Torn(s);
      if StopsEarly(s.ending) {
        return Crashed;
      }
      if failed {
        return Failed;
      }
      var details := Collect(s, old(log), table);
      log := Entries(details);
      return if s.ending == RunsOn then Completed(details) else Crashed;
    }

    /** The completion loop: append each row as it arrives, remember whether any case failed. */
    method EvaluatePending(s: Session, reused: map<string, Row>) returns (table: map<string, Row>, failed: bool)
      modifies this
      ensures failed == AnyFails(s.completed, s.failing)
      ensures table == Overlay(reused, Written(service, s.completed, s.failing))
      ensures log == old(log) + Entries(Written(service, s.completed, s.failing))
    {
      table, failed := reused, false;
      for n := 0 to |s.completed|
        invariant failed == AnyFails(s.completed[..n], s.failing)
        invariant table == Overlay(reused, Written(service, s.completed[..n], s.failing))
        invariant log == old(log) + Entries(Written(service, s.completed[..n], s.failing))
      {
        hide Overlay, Written, AnyFails, Entries;
        var c := s.completed[n];
        WrittenStep(service, s.completed, n, s.failing);
        if c.id in s.failing {
          failed := true;
        } else {
          var row := EvaluateCase(service, c);
          OverlayStep(reused, Written(service, s.completed[..n], s.failing), row);
          EntriesStep(old(log), Written(service, s.completed[..n], s.failing), row);
          table := table[row.id := row];
          log := log + [Entry(row)];
        }
      }
      assert s.completed[..|s.completed|] == s.completed;
    }

    /** The final list comprehension over the cases. */
    method Collect(s: Session, ghost before: Log, table: map<string, Row>) returns (details: seq<Row>)
      requires Feasible(before, s) && Compacts(before, s) && table == Table(service, before, s)
      ensures details == Details(service, before, s)
    {
      details := [];
      ghost var wanted := Details(service, before, s);
      assert |wanted| == |s.cases|;
      hide Details, Table, Compacts, Feasible;
      for i := 0 to |s.cases|
        invariant details == wanted[..i]
      {
        TableGivesDetails(service, before, s, i);
        details := details + [table[s.cases[i].id]];
      }
    }
  }

  // ----- histories of runs -----

  ghost function Replay(service: Service, log: Log, history: seq<Session>): Log {
    if history == [] then log
    else LogAfter(service, Replay(service, log, history[..|history| - 1]), history[|history| - 1])
  }

  /** Every run of the history was feasible on the log it found. */
  ghost predicate FeasibleHistory(service: Service, log: Log, history: seq<Session>) {
    history == [] ||
    var n := |history| - 1;
    FeasibleHistory(service, log, history[..n]) && Feasible(Replay(service, log, history[..n]), history[n])
  }

  ghost function CasesSeen(history: seq<Session>): set<Case> {
    set s, c | s in history && c in s.cases :: c
  }

  ghost predicate IsEvaluationOf(service: Service, row: Row, seen: set<Case>) {
    exists c :: c in seen && row == EvaluateCase(service, c)
  }

  /** Every line of the log is the evaluation of a case some run was given, or what a crash left of one. */
  ghost predicate Honest(service: Service, log: Log, seen: set<Case>) {
    forall line :: line in log ==> line == Broken || (line.Entry? && IsEvaluationOf(service, line.row, seen))
  }

  lemma {:induction false} LastRowsFromLog(log: Log, id: string)
    requires id in LastRows(log)
    ensures Entry(LastRows(log)[id]) in log
  {
    LastRowsAreLast(log, id);
  }

  lemma {:induction false} ReusedRowIsHonest(service: Service, log: Log, s: Session, seen: set<Case>, c: Case)
    requires Honest(service, log, seen) && UniqueIds(s.cases) && c in s.cases && c.id in Reused(Rows(log, s), s.cases)
    ensures var row := Reused(Rows(log, s), s.cases)[c.id];
            row.id == c.id && row.fingerprint == CaseFingerprint(c) && IsEvaluationOf(service, row, seen)
  {
    ReusedKeys(Rows(log, s), s.cases, c);
    LastRowsAreLast(log, c.id);
    LastRowsFromLog(log, c.id);
  }

  lemma {:induction false} RunKeepsHonesty(service: Service, log: Log, s: Session, seen: set<Case>)
    requires Honest(service, log, seen) && Feasible(log, s)
    requires forall c :: c in s.cases ==> c in seen
    ensures Honest(service, LogAfter(service, log, s), seen)
  {
    var after := LogAfter(service, log, s);
    if Compacts(log, s) {
      forall line | line in after ensures line.Entry? && IsEvaluationOf(service, line.row, seen) {
        var i :| 0 <= i < |after| && after[i] == line;
        var c := s.cases[i];
        if c.id in Reused(Rows(log, s), s.cases) {
          ReusedRowIsHonest(service, log, s, seen, c);
        }
      }
    } else if !CannotStart(log, s) {
      var written := Written(service, s.completed, s.failing);
      assert forall line :: line in after <==> line in log || line in Entries(written) || line in Torn(s);
      forall line | line in after
        ensures line == Broken || (line.Entry? && IsEvaluationOf(service, line.row, seen))
      {
        if line !in log && line != Broken {
          assert line in Entries(written);
          WrittenMembers(service, s.completed, s.failing, line.row);
          var c :| c in s.completed && line.row == EvaluateCase(service, c);
          PendingMembers(Reused(Rows(log, s), s.cases), s.cases, c);
        }
      }
    }
  }

  lemma {:induction false} HistoryIsHonest(service: Service, history: seq<Session>)
    requires FeasibleHistory(service, [], history)
    ensures Honest(service, Replay(service, [], history), CasesSeen(history))
  {
    if history != [] {
      var n := |history| - 1;
      var earlier, s := history[..n], history[n];
      HistoryIsHonest(service, earlier);
      assert history == earlier + [s];
      SeenGrows(earlier, s);
      hide Honest, CasesSeen;
      HonestyGrows(service, Replay(service, [], earlier), CasesSeen(earlier), CasesSeen(history));
      RunKeepsHonesty(service, Replay(service, [], earlier), s, CasesSeen(history));
    }
  }

  lemma {:induction false} SeenGrows(history: seq<Session>, s: Session)
    ensures CasesSeen(history) <= CasesSeen(history + [s])
    ensures forall c :: c in s.cases ==> c in CasesSeen(history + [s])
  {
    assert (history + [s])[|history|] == s;
    forall c | c in CasesSeen(history) ensures c in CasesSeen(history + [s]) {
      var t :| t in history && c in t.cases;
      assert t in history + [s];
    }
  }

  lemma {:induction false} HonestyGrows(service: Service, log: Log, seen: set<Case>, seen': set<Case>)
    requires Honest(service, log, seen) && seen <= seen'
    ensures Honest(service, log, seen')
  {
  }

  // ----- main results -----

  /** The fields of a row that the evaluation copies or depends on but the fingerprint does not cover. */
  predicate CoversUnfingerprinted(row: Row, c: Case) {
    row.dataset == c.dataset && row.kind == c.kind && row.review == c.review
  }

  /**
   After every history of crashes, failures and completions, each returned row carries the
   fingerprint of the current case, and it is the evaluation of that case exactly when it was
   evaluated afresh or the row taken over agrees on the fields outside the fingerprint.
   */
  lemma {:induction false} Recovery(service: Service, history: seq<Session>, s: Session, i: nat)
    requires FeasibleHistory(service, [], history)
    requires Feasible(Replay(service, [], history), s) && i < |s.cases|
    ensures var log := Replay(service, [], history);
            var reused, row, c := Reused(Rows(log, s), s.cases), Details(service, log, s)[i], s.cases[i];
            && row.id == c.id && row.fingerprint == CaseFingerprint(c)
            && IsEvaluationOf(service, row, CasesSeen(history + [s]))
            && (row == EvaluateCase(service, c) <==> c.id !in reused || CoversUnfingerprinted(reused[c.id], c))
  {
    var log, c := Replay(service, [], history), s.cases[i];
    var seen := CasesSeen(history + [s]);
    if c.id in Reused(Rows(log, s), s.cases) {
      HistoryIsHonest(service, history);
      ReusedRowIsHonest(service, log, s, CasesSeen(history), c);
      var d :| d in CasesSeen(history) && Details(service, log, s)[i] == EvaluateCase(service, d);
      assert d in seen;
    } else {
      SeenGrows(history, s);
    }
  }

  ghost predicate FingerprintsDetermine(seen: set<Case>) {
    forall c, d :: c in seen && d in seen && CaseFingerprint(c) == CaseFingerprint(d) ==> c == d
  }

  /** If no two cases ever given share a fingerprint and differ, recovery is exact. */
  lemma {:induction false} ExactRecovery(service: Service, history: seq<Session>, s: Session)
    requires FeasibleHistory(service, [], history) && Feasible(Replay(service, [], history), s)
    requires FingerprintsDetermine(CasesSeen(history + [s]))
    ensures Details(service, Replay(service, [], history), s)
         == seq(|s.cases|, i requires 0 <= i < |s.cases| => EvaluateCase(service, s.cases[i]))
  {
    var log, seen := Replay(service, [], history), CasesSeen(history + [s]);
    forall i | 0 <= i < |s.cases| ensures Details(service, log, s)[i] == EvaluateCase(service, s.cases[i]) {
      Recovery(service, history, s, i);
      var d :| d in seen && Details(service, log, s)[i] == EvaluateCase(service, d);
      SeenGrows(history, s);
      assert CaseFingerprint(d) == CaseFingerprint(s.cases[i]);
    }
  }

  /** The last durable row of the case, if it has one, does not match its fingerprint; or the run must not look. */
  ghost predicate IsMissing(log: Log, s: Session, c: Case) {
    s.noResume || c.id == "" ||
    !exists row: Row :: row.id == c.id && row.fingerprint == CaseFingerprint(c) && IsLast(log, row)
  }

  /** A run, also one that crashes, evaluates only cases that are missing, and all of them if it gets to the end. */
  lemma {:induction false} EvaluatesOnlyWhatIsMissing(log: Log, s: Session, c: Case)
    requires Feasible(log, s) && c in s.cases
    ensures c in s.completed ==> IsMissing(log, s, c)
    ensures !StopsEarly(s.ending) ==> (c in s.completed <==> IsMissing(log, s, c))
  {
    var rows := Rows(log, s);
    PendingMembers(Reused(rows, s.cases), s.cases, c);
    ReusedKeys(rows, s.cases, c);
    LastRowsAreLast(log, c.id);
    if
      && c.id in LastRows(log)
      && exists row: Row :: row.id == c.id && row.fingerprint == CaseFingerprint(c) && IsLast(log, row)
    {
      var row: Row :| row.id == c.id && row.fingerprint == CaseFingerprint(c) && IsLast(log, row);
      LastIsUnique(log, row, LastRows(log)[c.id]);
    }
  }

  lemma LastIsUnique(log: Log, r: Row, r': Row)
    requires r.id == r'.id && IsLast(log, r) && IsLast(log, r')
    ensures r == r'
  {
  }

  // ----- a torn row -----

  /** A run that gets past its evaluations and replaces the log. */
  ghost predicate Replaces(s: Session) {
    s.noResume && !StopsEarly(s.ending) && !AnyFails(s.completed, s.failing)
  }

  /**
   After a crash inside a row no run resumes: each one that would is turned away and leaves the log as
   it is, through any history, until a run that does not resume completes and replaces the log.
   */
  lemma {:induction false} TornRowBlocksResuming(
      service: Service, log: Log, torn: Session, history: seq<Session>, s: Session)
    requires !CannotStart(log, torn) && torn.ending == CrashesInsideRow
    requires forall h :: h in history ==> !Replaces(h)
    ensures var now := Replay(service, LogAfter(service, log, torn), history);
            && !Readable(now)
            && (!s.noResume ==> CannotStart(now, s) && LogAfter(service, now, s) == now)
            && (Readable(LogAfter(service, now, s)) <==> Replaces(s))
  {
    var first := LogAfter(service, log, torn);
    assert first[|first| - 1] == Broken;
    StaysUnreadable(service, first, history);
    var now := Replay(service, first, history);
    UnreadableStep(service, now, s);
    hide Replay, Readable, LogAfter;
  }

  lemma {:induction false} UnreadableStep(service: Service, log: Log, s: Session)
    requires !Readable(log)
    ensures Readable(LogAfter(service, log, s)) <==> Replaces(s)
    ensures !s.noResume ==> CannotStart(log, s) && LogAfter(service, log, s) == log
  {
    if Replaces(s) {
      assert Broken !in Entries(Details(service, log, s));
    } else if s.noResume {
      assert Broken in LogBeforeCompaction(service, log, s);
    }
  }

  lemma {:induction false} StaysUnreadable(service: Service, log: Log, history: seq<Session>)
    requires !Readable(log) && forall h :: h in history ==> !Replaces(h)
    ensures !Readable(Replay(service, log, history))
  {
    if history != [] {
      var n := |history| - 1;
      assert history[n] in history && forall h :: h in history[..n] ==> h in history;
      StaysUnreadable(service, log, history[..n]);
      hide Readable, LogAfter, Replaces;
      UnreadableStep(service, Replay(service, log, history[..n]), history[n]);
    }
  }

  /** Work that completed before a crash or a failure is durable: the next run does not repeat it. */
  lemma {:induction false} CompletedWorkSurvives(service: Service, log: Log, s: Session, next: Session, c: Case)
    requires Feasible(log, s) && !CannotStart(log, s) && Feasible(LogAfter(service, log, s), next)
    requires c in s.completed && c.id !in s.failing && c.id != ""
    requires !next.noResume && c in next.cases
    ensures c !in next.completed
  {
    var after := LogAfter(service, log, s);
    var rows, reused := Rows(after, next), Reused(Rows(after, next), next.cases);
    PendingMembers(Reused(Rows(log, s), s.cases), s.cases, c);
    if Compacts(log, s) {
      var i :| 0 <= i < |s.cases| && s.cases[i] == c;
      DetailIsLast(service, log, s, i);
    } else {
      WrittenIsLast(service, log, s.completed, s.failing, c);
      TornKeepsRows(log + Entries(Written(service, s.completed, s.failing)), s);
    }
    hide LastRows, Written, Entries, Details, Pending;
    ReusedKeys(rows, next.cases, c);
    PendingMembers(reused, next.cases, c);
  }

  lemma {:induction false} TornKeepsRows(log: Log, s: Session)
    ensures LastRows(log + Torn(s)) == LastRows(log)
  {
    if s.ending == CrashesInsideRow {
      assert (log + Torn(s))[..|log|] == log;
    } else {
      assert log + Torn(s) == log;
    }
  }

  lemma {:induction false} WrittenIsLast(
      service: Service, log: Log, completed: seq<Case>, failing: set<string>, c: Case)
    requires UniqueIds(completed) && c in completed && c.id !in failing && c.id != ""
    ensures var rows := LastRows(log + Entries(Written(service, completed, failing)));
            c.id in rows && rows[c.id] == EvaluateCase(service, c)
  {
    var n := |completed| - 1;
    var earlier := completed[..n];
    assert completed == earlier + [completed[n]];
    if c != completed[n] {
      assert c in earlier;
      WrittenIsLast(service, log, earlier, failing, c);
    }
    if completed[n].id !in failing {
      var all := log + Entries(Written(service, completed, failing));
      assert all[..|all| - 1] == log + Entries(Written(service, earlier, failing));
    }
  }

  lemma {:induction false} DetailIsLast(service: Service, log: Log, s: Session, i: nat)
    requires Feasible(log, s) && i < |s.cases| && s.cases[i].id != "" && s.cases[i].id !in Reused(Rows(log, s), s.cases)
    ensures var rows := LastRows(Entries(Details(service, log, s)));
            s.cases[i].id in rows && rows[s.cases[i].id] == EvaluateCase(service, s.cases[i])
  {
    var compacted, row := Entries(Details(service, log, s)), EvaluateCase(service, s.cases[i]);
    assert compacted[i] == Entry(row);
    forall j | i < j < |compacted| ensures !(compacted[j].Entry? && compacted[j].row.id == row.id) {
      DetailId(service, log, s, j);
    }
    assert IsLast(compacted, row);
    LastRowsAreLast(compacted, row.id);
    LastIsUnique(compacted, row, LastRows(compacted)[row.id]);
  }

  lemma {:induction false} DetailId(service: Service, log: Log, s: Session, j: nat)
    requires UniqueIds(s.cases) && j < |s.cases|
    ensures Details(service, log, s)[j].id == s.cases[j].id
  {
    var c := s.cases[j];
    if c.id in Reused(Rows(log, s), s.cases) {
      ReusedKeys(Rows(log, s), s.cases, c);
      LastRowsAreLast(log, c.id);
    }
  }

  /**
   The fingerprint leaves out the review status, so a case that was reviewed between two runs
   keeps reporting the old status: recovery is not exact without the extra condition.
   */
  lemma {:induction false} StaleReviewStatusIsReused(service: Service)
    ensures var draft := Case("q1", "query", "a1", "{}", "ds", "k", "unknown");
            var reviewed := draft.(review := "reviewed");
            var first := Session([draft], false, [draft], {}, RunsOn);
            var second := Session([reviewed], false, [], {}, RunsOn);
            && FeasibleHistory(service, [], [first])
            && Feasible(Replay(service, [], [first]), second)
            && Details(service, Replay(service, [], [first]), second) == [EvaluateCase(service, draft)]
            && EvaluateCase(service, draft) != EvaluateCase(service, reviewed)
  {
    var draft := Case("q1", "query", "a1", "{}", "ds", "k", "unknown");
    var reviewed := draft.(review := "reviewed");
    var first := Session([draft], false, [draft], {}, RunsOn);
    var second := Session([reviewed], false, [], {}, RunsOn);
    FirstRunEvaluates(service, draft, first);
    assert [first][..0] == [];
    var log := [Entry(EvaluateCase(service, draft))];
    assert Replay(service, [], [first]) == log;
    assert log[..0] == [];
    assert LastRows(log) == map["q1" := EvaluateCase(service, draft)];
    assert reviewed in second.cases;
    var reused := Reused(Rows(log, second), second.cases);
    assert reused == map["q1" := EvaluateCase(service, draft)];
    forall c | c in Todo(log, second) ensures c in second.completed {
      PendingMembers(reused, second.cases, c);
    }
  }

  lemma {:induction false} FirstRunEvaluates(service: Service, c: Case, s: Session)
    requires s == Session([c], false, [c], {}, RunsOn)
    ensures Feasible([], s) && LogAfter(service, [], s) == [Entry(EvaluateCase(service, c))]
  {
    var reused := Reused(Rows([], s), [c]);
    assert reused == map[];
    forall d | d in Todo([], s) ensures d in s.completed {
      PendingMembers(reused, [c], d);
    }
    PendingMembers(reused, [c], c);
    assert Details(service, [], s) == [EvaluateCase(service, c)];
  }
}
