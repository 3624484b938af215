/** How a run ends and what it tells: which errors end it, what is spoken, which streams wait. */
module Outcomes {
  import opened Wrappers
  import opened CanvasGraph
  import opened Scheduler
  import opened Provenance
  import Suspension
  import Text

  // ----- errors -----

  /** An error that nobody handles: no handler, or one that neither goes elsewhere nor has a default. */
  predicate EndsRun(g: Graph, s: Step) {
    s.id in g && s.answer.error != "" &&
    match g[s.id].handler
    case None => true
    case Some(h) => h.goto == [] && !h.hasDefault
  }

  /** The error of the last entry that ends the run, or "". */
  function LastError(g: Graph, trace: seq<Step>): string {
    if trace == [] then ""
    else
      var s := trace[|trace| - 1];
      if EndsRun(g, s) then s.answer.error else LastError(g, trace[..|trace| - 1])
  }

  lemma {:induction false} LastErrorSnoc(g: Graph, trace: seq<Step>, s: Step)
    ensures LastError(g, trace + [s]) == if EndsRun(g, s) then s.answer.error else LastError(g, trace)
  {
    assert (trace + [s])[..|trace|] == trace;
  }

  lemma {:induction false} LastErrorIff(g: Graph, trace: seq<Step>)
    ensures LastError(g, trace) != "" <==> exists k :: 0 <= k < |trace| && EndsRun(g, trace[k])
  {
    if trace != [] {
      var n := |trace| - 1;
      LastErrorIff(g, trace[..n]);
      hide EndsRun;
      assert forall k :: 0 <= k < n ==> trace[..n][k] == trace[k];
    }
  }

  // ----- one entry -----

  /** A stream that nobody has read: only a Message reads its own. */
  predicate LeavesStream(g: Graph, s: Step) {
    s.id in g && g[s.id].kind != Message && g[s.id].kind != Iteration && g[s.id].kind != Loop
    && s.id in s.answer.streaming
  }

  /** What the record of an entry says, in terms of its component, its answer and the entries before it. */
  ghost predicate IsRecorded(g: Graph, before: seq<Step>, s: Step) {
    && s.id in g
    && (s.queued <==> LeavesStream(g, s) && LastError(g, before + [s]) == "")
    && (s.closes == if EndsItem(g, s) then g[s.id].parent else None)
    && (s.plain <==> !Jumps(g, s) && IsOrdinaryTurn(g, s) && (g[s.id].downstream != [] || g[s.id].parent.None?))
  }

  ghost predicate AllRecorded(g: Graph, trace: seq<Step>) {
    forall k :: 0 <= k < |trace| ==> IsRecorded(g, trace[..k], trace[k])
  }

  predicate SpeaksDefault(g: Graph, s: Step) {
    s.id in g && s.answer.error != "" && g[s.id].handler.Some?
    && g[s.id].handler.value.goto == [] && g[s.id].handler.value.hasDefault
  }

  /** How often an entry speaks: a Message once, and once more for a default in place of an error. */
  function Speeches(g: Graph, s: Step): nat {
    (if s.id in g && g[s.id].kind == Message then 1 else 0) + (if SpeaksDefault(g, s) then 1 else 0)
  }

  function SpeechCount(g: Graph, trace: seq<Step>, c: Id): nat {
    if trace == [] then 0
    else
      var s := trace[|trace| - 1];
      SpeechCount(g, trace[..|trace| - 1], c) + if s.id == c then Speeches(g, s) else 0
  }

  lemma {:induction false} SpeechCountSnoc(g: Graph, trace: seq<Step>, s: Step, c: Id)
    ensures SpeechCount(g, trace + [s], c) == SpeechCount(g, trace, c) + if s.id == c then Speeches(g, s) else 0
  {
    assert (trace + [s])[..|trace|] == trace;
  }

  lemma {:induction false} RecordedSnoc(g: Graph, trace: seq<Step>, s: Step)
    requires AllRecorded(g, trace) && IsRecorded(g, trace, s)
    ensures AllRecorded(g, trace + [s])
  {
    hide IsRecorded;
    var longer := trace + [s];
    forall k | 0 <= k < |longer| ensures IsRecorded(g, longer[..k], longer[k]) {
      assert longer[..k] == trace[..k];
      assert k == |trace| ==> trace[..k] == trace;
    }
  }

  /** How often an event occurs. */
  function Times(events: seq<Event>, e: Event): nat {
    if events == [] then 0
    else Times(events[..|events| - 1], e) + if events[|events| - 1] == e then 1 else 0
  }

  lemma {:induction false} TimesAppend(a: seq<Event>, b: seq<Event>, e: Event)
    ensures Times(a + b, e) == Times(a, e) + Times(b, e)
    decreases |b|
  {
    if b == [] {
      assert a + b == a;
    } else {
      var n := |b| - 1;
      TimesAppend(a, b[..n], e);
      assert (a + b)[..|a + b| - 1] == a + b[..n];
    }
  }

  lemma {:induction false} TimesNone(events: seq<Event>, e: Event)
    requires e !in events
    ensures Times(events, e) == 0
  {
    if events != [] {
      TimesNone(events[..|events| - 1], e);
    }
  }

  predicate IsTold(e: Event) {
    !e.Done? && !e.Started?
  }

  /** The events of an entry other than completions are its speeches. */
  lemma {:induction false} StepSpeaks(
      g: Graph, s: Step, released: seq<Id>, queued: bool, closes: Option<Id>, e: Event)
    requires s.id in g && IsTold(e)
    ensures Times(StepEvents(g[s.id], s.id, s.answer, released, queued, closes), e)
         == if e == Spoke(s.id) then Speeches(g, s) else 0
  {
    hide StepEvents, Deferred, SpeaksDefault, IsContainer, Times, Only;
    var c, id := g[s.id], s.id;
    var spoken := if c.kind == Message then [Spoke(id)] + Deferred(released) else [];
    var reports := !IsContainer(c.kind) && !queued;
    var other := if closes.Some? then closes.value else id;
    EventsByPart(g, s, released, queued, closes);
    FourParts(spoken, Only(SpeaksDefault(g, s), Spoke(id)), Only(reports, Done(id, false)),
              Only(closes.Some?, Done(other, false)), e);
    MessageSpeaks(id, released, e);
    OnlyTimes(SpeaksDefault(g, s), Spoke(id), e);
    OnlyTimes(reports, Done(id, false), e);
    OnlyTimes(closes.Some?, Done(other, false), e);
  }

  lemma {:induction false} EventsByPart(g: Graph, s: Step, released: seq<Id>, queued: bool, closes: Option<Id>)
    requires s.id in g
    ensures var c, id, other := g[s.id], s.id, if closes.Some? then closes.value else s.id;
            var spoken := if c.kind == Message then [Spoke(id)] + Deferred(released) else [];
            StepEvents(c, id, s.answer, released, queued, closes)
            == spoken + Only(SpeaksDefault(g, s), Spoke(id))
               + Only(!IsContainer(c.kind) && !queued, Done(id, false)) + Only(closes.Some?, Done(other, false))
  {
    hide Deferred, IsContainer;
    assert UsesDefault(g[s.id], s.answer) == SpeaksDefault(g, s);
    hide UsesDefault, SpeaksDefault;
  }

  /** One event, if at all. */
  function Only(b: bool, d: Event): seq<Event> {
    if b then [d] else []
  }

  lemma {:induction false} OnlyTimes(b: bool, d: Event, e: Event)
    ensures Times(Only(b, d), e) == (if b && e == d then 1 else 0) && Times([], e) == 0
  {
    assert [d][..0] == [];
  }

  lemma {:induction false} MessageSpeaks(id: Id, released: seq<Id>, e: Event)
    requires IsTold(e)
    ensures Times([Spoke(id)] + Deferred(released), e) == if e == Spoke(id) then 1 else 0
  {
    TimesNone(Deferred(released), e);
    hide Deferred;
    TimesAppend([Spoke(id)], Deferred(released), e);
    OnlyTimes(true, Spoke(id), e);
  }

  lemma {:induction false} FourParts(a: seq<Event>, b: seq<Event>, c: seq<Event>, d: seq<Event>, e: Event)
    ensures Times(a + b + c + d, e) == Times(a, e) + Times(b, e) + Times(c, e) + Times(d, e)
  {
    hide Times;
    TimesAppend(a + b + c, d, e);
    TimesAppend(a + b, c, e);
    TimesAppend(a, b, e);
  }

  lemma {:induction false} PostStepRecords(g: Graph, st: State, i: nat, a: Answer)
    requires WellFormed(g) && i < |st.path| && st.path[i] in g
    requires st.error == LastError(g, st.trace) && AllRecorded(g, st.trace)
    ensures var r := PostStep(g, st, i, a); r.error == LastError(g, r.trace) && AllRecorded(g, r.trace)
  {
    var r := PostStep(g, st, i, a);
    var s := r.trace[|st.trace|];
    assert r.trace == st.trace + [s] && s.id == st.path[i] && s.answer == a;
    LastErrorSnoc(g, st.trace, s);
    assert r.error == if EndsRun(g, s) then a.error else st.error;
    assert IsRecorded(g, st.trace, s) by {
      hide LastError, StepEvents, ReleaseCount, Extend, AllRecorded;
    }
    hide *;
    RecordedSnoc(g, st.trace, s);
  }

  lemma {:induction false} PostStepSpeaks(g: Graph, st: State, i: nat, a: Answer, e: Event)
    requires WellFormed(g) && i < |st.path| && st.path[i] in g && IsTold(e)
    ensures var r := PostStep(g, st, i, a);
            && |r.trace| == |st.trace| + 1 && r.trace == st.trace + [r.trace[|st.trace|]]
            && var s := r.trace[|st.trace|];
               Times(r.events, e) == Times(st.events, e) + if e == Spoke(s.id) then Speeches(g, s) else 0
  {
    var r, c, id := PostStep(g, st, i, a), g[st.path[i]], st.path[i];
    var s, n := r.trace[|st.trace|], ReleaseCount(g[st.path[i]], st.path[i], a, st.partials);
    StepSpeaks(g, s, st.partials[..n], s.queued, s.closes, e);
    hide StepEvents, Extend, Speeches, Times;
    TimesAppend(st.events, StepEvents(c, id, a, st.partials[..n], s.queued, s.closes), e);
  }

  // ----- one batch -----

  /** How often the start, a question to the user and the end were told. */
  datatype Announced = Announced(started: nat, asked: nat, ended: nat)

  /** What is known of a state about errors, and about what was told. */
  ghost predicate Accounted(g: Graph, st: State, c: Id, told: Announced) {
    && st.error == LastError(g, st.trace) && AllRecorded(g, st.trace)
    && Times(st.events, Spoke(c)) == SpeechCount(g, st.trace, c)
    && Times(st.events, WorkflowStarted) == told.started
    && Times(st.events, AskUser) == told.asked
    && Times(st.events, WorkflowFinished) == told.ended
  }

  lemma {:induction false} PostStepAccounts(g: Graph, st: State, i: nat, a: Answer, c: Id, told: Announced)
    requires WellFormed(g) && i < |st.path| && st.path[i] in g && Accounted(g, st, c, told)
    ensures Accounted(g, PostStep(g, st, i, a), c, told)
  {
    PostStepRecords(g, st, i, a);
    PostStepSpeaks(g, st, i, a, Spoke(c));
    var r := PostStep(g, st, i, a);
    hide PostStep, LastError, AllRecorded, Speeches, WellFormed, Times;
    SpeechCountSnoc(g, st.trace, r.trace[|st.trace|], c);
    hide SpeechCount;
    PostStepSpeaks(g, st, i, a, WorkflowStarted);
    PostStepSpeaks(g, st, i, a, AskUser);
    PostStepSpeaks(g, st, i, a, WorkflowFinished);
  }

  lemma {:induction false} PostBatchAccounts(
      g: Graph, st: State, from: nat, end: nat, answer: nat -> Answer, c: Id, told: Announced)
    requires WellFormed(g) && from <= end <= |st.path| && Known(g, st.path[from..end]) && Accounted(g, st, c, told)
    ensures Accounted(g, PostBatch(g, st, from, end, answer), c, told)
    decreases end - from
  {
    if from < end {
      PostBatchUnfolds(g, st, from, end, answer);
      hide PostStep, PostBatch, WellFormed, Known, Accounted;
      PostStepAccounts(g, st, from, answer(from), c, told);
      PostBatchAccounts(g, PostStep(g, st, from, answer(from)), from + 1, end, answer, c, told);
    } else {
      hide PostStep, Accounted;
    }
  }

  lemma {:induction false} ProcessedAccounts(g: Graph, st: State, o: BatchOracle, c: Id, told: Announced)
    requires WellFormed(g) && st.idx <= |st.path| && Known(g, st.path[st.idx..]) && Accounted(g, st, c, told)
    ensures Accounted(g, Processed(g, st, o), c, told)
  {
    var admitted := Admitted(g, st);
    StartsAccount(g, st, admitted, st.path[st.idx..], c, told);
    hide Accounted, PostBatch;
    PostBatchAccounts(g, admitted, st.idx, |admitted.path|, o.answer, c, told);
  }

  lemma {:induction false} StartsAccount(
      g: Graph, st: State, r: State, ids: seq<Id>, c: Id, told: Announced)
    requires Accounted(g, st, c, told)
    requires r.trace == st.trace && r.error == st.error && r.events == st.events + StartEvents(ids)
    ensures Accounted(g, r, c, told)
  {
    hide LastError, AllRecorded, SpeechCount, Times;
    forall e | IsTold(e) ensures Times(r.events, e) == Times(st.events, e) {
      TimesNone(StartEvents(ids), e);
      TimesAppend(st.events, StartEvents(ids), e);
    }
  }

  // ----- whole runs -----

  predicate Asks(st: State) {
    st.status == Suspended
  }

  predicate TellsEnd(st: State) {
    st.status == Finished || (st.status == Failed && Text.Contains(st.error, CANCELED))
  }

  /** How often a run in this state has said that it started, that it asks, that it is over. */
  function Announcements(anew: bool, st: State): Announced {
    Announced(if anew then 1 else 0, if Asks(st) then 1 else 0, if TellsEnd(st) then 1 else 0)
  }

  ghost predicate Told(g: Graph, anew: bool, st: State, c: Id) {
    (st.status == Failed <==> st.error != "") && Accounted(g, st, c, Announcements(anew, st))
  }

  lemma {:induction false} SettleTells(
      g: Graph, anew: bool, st: State, end: nat, needsInput: bool, batch: seq<Id>, c: Id)
    requires st.idx <= end <= |st.path| && st.status == Running && Accounted(g, st, c, Announcements(anew, st))
    ensures Told(g, anew, Settle(g, st, end, needsInput, batch), c)
  {
    hide LastError, AllRecorded, SpeechCount, FillUps, Others, Text.Contains;
    assert !TellsEnd(st);
    SettleAdds(g, st, end, needsInput, batch);
    hide Settle, Times, Only, TellsEnd;
    var r := Settle(g, st, end, needsInput, batch);
    TailTimes(st.events, Asks(r), TellsEnd(r), Spoke(c));
    TailTimes(st.events, Asks(r), TellsEnd(r), WorkflowStarted);
    TailTimes(st.events, Asks(r), TellsEnd(r), AskUser);
    TailTimes(st.events, Asks(r), TellsEnd(r), WorkflowFinished);
  }

  lemma {:induction false} TailTimes(events: seq<Event>, asks: bool, ends: bool, e: Event)
    ensures Times(events + Only(asks, AskUser) + Only(ends, WorkflowFinished), e)
         == Times(events, e) + (if asks && e == AskUser then 1 else 0)
            + (if ends && e == WorkflowFinished then 1 else 0)
  {
    hide Times, Only;
    TimesAppend(events, Only(asks, AskUser), e);
    TimesAppend(events + Only(asks, AskUser), Only(ends, WorkflowFinished), e);
    OnlyTimes(asks, AskUser, e);
    OnlyTimes(ends, WorkflowFinished, e);
  }

  lemma {:induction false} SettleAdds(g: Graph, st: State, end: nat, needsInput: bool, batch: seq<Id>)
    requires st.idx <= end <= |st.path| && st.status == Running
    ensures var r := Settle(g, st, end, needsInput, batch);
            && r.trace == st.trace && r.error == st.error && (r.status == Failed <==> r.error != "")
            && r.events == st.events + Only(Asks(r), AskUser) + Only(TellsEnd(r), WorkflowFinished)
  {
    hide FillUps, Others, Text.Contains;
    assert st.events + [] == st.events;
  }

  lemma {:induction false} StepTells(g: Graph, anew: bool, st: State, o: BatchOracle, c: Id)
    requires WellFormed(g) && st.status == Running && Proper(st) && Told(g, anew, st, c)
    ensures Told(g, anew, BatchStep(g, st, o), c)
  {
    hide BatchStep, Told, Known, WellFormed;
    if Known(g, st.path[st.idx..]) && !o.canceled {
      ProcessedTells(g, anew, st, o, c);
    } else {
      StoppedTells(g, anew, st, o, c);
    }
  }

  lemma {:induction false} StoppedTells(g: Graph, anew: bool, st: State, o: BatchOracle, c: Id)
    requires WellFormed(g) && st.status == Running && Proper(st) && Told(g, anew, st, c)
    requires !Known(g, st.path[st.idx..]) || o.canceled
    ensures Told(g, anew, BatchStep(g, st, o), c)
  {
    hide Accounted, Known, StartEvents, KnownPrefix, Settle, Processed, Survivors, Announcements, WellFormed;
    var r, batch := BatchStep(g, st, o), st.path[st.idx..];
    var ids := if Known(g, batch) then batch else KnownPrefix(g, batch);
    NotOver(anew, st, r);
    StartsAccount(g, st, r, ids, c, Announcements(anew, st));
  }

  lemma {:induction false} ProcessedTells(g: Graph, anew: bool, st: State, o: BatchOracle, c: Id)
    requires WellFormed(g) && st.status == Running && Proper(st) && Told(g, anew, st, c)
    requires Known(g, st.path[st.idx..]) && !o.canceled
    ensures Told(g, anew, BatchStep(g, st, o), c)
  {
    hide Accounted, Processed, Settle, Survivors, Announcements, WellFormed, Known;
    ProcessedAccounts(g, st, o, c, Announcements(anew, st));
    ProcessedKeeps(g, st, o);
    NotOver(anew, st, Processed(g, st, o));
    SettleTells(g, anew, Processed(g, st, o), st.idx + |Survivors(g, st)|, o.needsInput, Survivors(g, st), c);
  }

  /** A state that did not end in one of the three told ways announces its start only. */
  lemma {:induction false} NotOver(anew: bool, st: State, r: State)
    requires st.status == Running && (r.status == Running || r.status == Canceled || r.status == Crashed)
    ensures Announcements(anew, r) == Announcements(anew, st)
  {
  }

  lemma {:induction false} RunTells(g: Graph, anew: bool, st: State, oracle: seq<BatchOracle>, c: Id)
    requires WellFormed(g) && Proper(st) && Told(g, anew, st, c)
    ensures Told(g, anew, Run(g, st, oracle), c)
    decreases |oracle|
  {
    if oracle != [] && st.status == Running {
      BatchStepIsProper(g, st, oracle[0]);
      StepTells(g, anew, st, oracle[0], c);
      hide BatchStep, Told;
      RunTells(g, anew, BatchStep(g, st, oracle[0]), oracle[1..], c);
    }
  }

  lemma {:induction false} StartTells(g: Graph, path: seq<Id>, c: Id)
    ensures Told(g, !IsResume(path), Start(path), c)
  {
    hide IsResume;
    assert [WorkflowStarted][..0] == [];
    assert Times([WorkflowStarted], WorkflowStarted) == 1 && Times([WorkflowStarted], AskUser) == 0;
    assert Times([WorkflowStarted], WorkflowFinished) == 0 && Times([WorkflowStarted], Spoke(c)) == 0;
  }

  /**
   A run has failed exactly when an executed entry showed an error that nobody handles; the error
   it reports is that of the last such entry.
   */
  lemma {:induction false} UnhandledErrorsEndRuns(g: Graph, path: seq<Id>, oracle: seq<BatchOracle>)
    requires WellFormed(g)
    ensures var r := Run(g, Start(path), oracle);
            && (r.status == Failed <==> exists k :: 0 <= k < |r.trace| && EndsRun(g, r.trace[k]))
            && r.error == LastError(g, r.trace)
  {
    StartTells(g, path, BEGIN);
    RunTells(g, !IsResume(path), Start(path), oracle, BEGIN);
    hide Run, Start, IsResume, EndsRun;
    LastErrorIff(g, Run(g, Start(path), oracle).trace);
  }

  /**
   In every reachable state: an entry queued its stream, closed its container and ran on to its
   downstream list exactly when its component and its answer say so.
   */
  lemma {:induction false} EntriesAreRecorded(g: Graph, path: seq<Id>, oracle: seq<BatchOracle>)
    requires WellFormed(g)
    ensures AllRecorded(g, Run(g, Start(path), oracle).trace)
  {
    StartTells(g, path, BEGIN);
    RunTells(g, !IsResume(path), Start(path), oracle, BEGIN);
  }

  /**
   In every reachable state, what was told is what happened: each component spoke as often as its
   entries do, and the start, the question to the user and the end were each told once or not at all.
   */
  lemma {:induction false} EventsAreTold(g: Graph, path: seq<Id>, oracle: seq<BatchOracle>, c: Id)
    requires WellFormed(g)
    ensures var r := Run(g, Start(path), oracle);
            && Times(r.events, Spoke(c)) == SpeechCount(g, r.trace, c)
            && Times(r.events, WorkflowStarted) == (if IsResume(path) then 0 else 1)
            && Times(r.events, AskUser) == (if r.status == Suspended then 1 else 0)
            && Times(r.events, WorkflowFinished)
               == if r.status == Finished || (r.status == Failed && Text.Contains(r.error, CANCELED)) then 1 else 0
  {
    StartTells(g, path, c);
    RunTells(g, !IsResume(path), Start(path), oracle, c);
    hide Run, Start, IsResume, AllRecorded, LastError, SpeechCount, Text.Contains;
  }

  // ----- the order of events -----

  /** A Message speaks, then the released streams are reported, then itself. */
  lemma {:induction false} MessageOrder(g: Graph, st: State, i: nat, a: Answer)
    requires WellFormed(g) && i < |st.path| && st.path[i] in g && g[st.path[i]].kind == Message
    requires a.error == ""
    ensures var r, id := PostStep(g, st, i, a), st.path[i];
            var released := st.partials[..|st.partials| - |r.partials|];
            r.events == st.events + ([Spoke(id)] + Deferred(released) + [Done(id, false)])
  {
    var r, id := PostStep(g, st, i, a), st.path[i];
    var n := ReleaseCount(g[id], id, a, st.partials);
    assert |r.partials| == |st.partials| - n;
    hide Extend, Offer, Deferred, Drained;
  }

  /** An item that ends is reported, and its container after it. */
  lemma {:induction false} ItemOrder(g: Graph, st: State, i: nat, a: Answer)
    requires WellFormed(g) && i < |st.path| && st.path[i] in g && IsItem(g[st.path[i]].kind) && a.ended
    requires a.error == "" && st.path[i] !in a.streaming
    ensures var r, id := PostStep(g, st, i, a), st.path[i];
            r.events == st.events + [Done(id, false), Done(g[id].parent.value, false)]
  {
    hide Extend, Offer, Deferred, Drained;
  }

  lemma {:induction false} PostBatchTellsMore(g: Graph, st: State, from: nat, end: nat, answer: nat -> Answer)
    requires WellFormed(g) && from <= end <= |st.path| && Known(g, st.path[from..end])
    ensures st.events <= PostBatch(g, st, from, end, answer).events
    decreases end - from
  {
    if from < end {
      PostBatchUnfolds(g, st, from, end, answer);
      StepTellsMore(g, st, from, answer(from));
      hide PostStep, PostBatch, WellFormed, Known;
      PostBatchTellsMore(g, PostStep(g, st, from, answer(from)), from + 1, end, answer);
    } else {
      hide PostStep;
    }
  }

  lemma {:induction false} StepTellsMore(g: Graph, st: State, i: nat, a: Answer)
    requires WellFormed(g) && i < |st.path| && st.path[i] in g
    ensures st.events <= PostStep(g, st, i, a).events
  {
    hide Extend, Offer, StepEvents, Drained;
  }

  /** Before anything else in a batch every entry of it is announced, in order, also those that are popped. */
  lemma {:induction false} BatchIsAnnounced(g: Graph, st: State, o: BatchOracle)
    requires WellFormed(g) && st.status == Running && Proper(st) && Known(g, st.path[st.idx..])
    ensures var batch := st.path[st.idx..];
            st.events + seq(|batch|, i requires 0 <= i < |batch| => Started(batch[i])) <= BatchStep(g, st, o).events
  {
    var batch := st.path[st.idx..];
    assert StartEvents(batch) == seq(|batch|, i requires 0 <= i < |batch| => Started(batch[i]));
    if !o.canceled {
      var admitted := Admitted(g, st);
      assert admitted.events == st.events + StartEvents(batch);
      PostBatchTellsMore(g, admitted, st.idx, |admitted.path|, o.answer);
      ProcessedKeeps(g, st, o);
      hide StartEvents, PostBatch, Admitted, Survivors, FillUps, Others, Known, WellFormed;
    }
  }

  // ----- the end of a batch -----

  /** Some entry is a form. */
  ghost predicate HasForm(g: Graph, ids: seq<Id>) {
    exists k :: 0 <= k < |ids| && ids[k] in g && g[ids[k]].kind == UserFillUp
  }

  lemma {:induction false} FillUpsIff(g: Graph, ids: seq<Id>)
    ensures FillUps(g, ids) != [] <==> HasForm(g, ids)
  {
    if ids != [] {
      FillUpsIff(g, ids[1..]);
      assert forall k :: 1 <= k < |ids| ==> ids[k] == ids[1..][k - 1];
      if HasForm(g, ids[1..]) {
        var k :| 0 <= k < |ids[1..]| && ids[1..][k] in g && g[ids[1..][k]].kind == UserFillUp;
        assert ids[k + 1] == ids[1..][k];
      }
    }
  }

  /**
   After a batch without an error the run waits for a pending form that needs input, or ends when
   nothing is pending.
   */
  lemma {:induction false} BatchEnds(g: Graph, st: State, o: BatchOracle)
    requires WellFormed(g) && st.status == Running && Proper(st) && Known(g, st.path[st.idx..]) && !o.canceled
    requires Processed(g, st, o).error == ""
    ensures var r, pending := BatchStep(g, st, o), Suspension.Pending(g, st, o);
            r.status == if o.needsInput && HasForm(g, pending) then Suspended
                        else if pending == [] then Finished else Running
  {
    hide Processed, Survivors, HasForm, FillUps, Others, WellFormed;
    ProcessedKeeps(g, st, o);
    FillUpsIff(g, Suspension.Pending(g, st, o));
  }

  // ----- streams -----

  lemma {:induction false} DrainedUpTo(partials: seq<Id>, streaming: set<Id>)
    ensures var n := Drained(partials, streaming);
            && (forall k :: 0 <= k < n ==> partials[k] !in streaming)
            && (n < |partials| ==> partials[n] in streaming)
  {
    if partials != [] && partials[0] !in streaming {
      DrainedUpTo(partials[1..], streaming);
    }
  }

  /**
   Only a Message looks at the waiting streams: it releases them from the head up to the first that
   still runs, and its own stream has been read by then.
   */
  lemma {:induction false} MessageReleases(g: Graph, st: State, i: nat, a: Answer) returns (n: nat)
    requires WellFormed(g) && i < |st.path| && st.path[i] in g
    ensures n <= |st.partials|
    ensures var r, id := PostStep(g, st, i, a), st.path[i];
            if g[id].kind == Message then
              && r.partials == st.partials[n..]
              && (forall k :: 0 <= k < n ==> st.partials[k] == id || st.partials[k] !in a.streaming)
              && (n < |st.partials| ==> st.partials[n] != id && st.partials[n] in a.streaming)
            else n == 0 && st.partials <= r.partials <= st.partials + [id]
  {
    var id := st.path[i];
    n := ReleaseCount(g[id], id, a, st.partials);
    DrainedUpTo(st.partials, Live(g[id], id, a));
    hide Drained, StepEvents, Extend;
  }
}
