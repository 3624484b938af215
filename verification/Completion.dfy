/** Completion events: every processed entry is reported finished once, at once or through the stream queue. */
module Completion {
  import opened Wrappers
  import opened CanvasGraph
  import opened Scheduler

  // ----- counting events, queue entries and trace steps -----

  ghost function DoneCount(events: seq<Event>, c: Id): nat {
    if events == [] then 0
    else
      var e := events[|events| - 1];
      DoneCount(events[..|events| - 1], c) + if e.Done? && e.id == c then 1 else 0
  }

  ghost function Count(ids: seq<Id>, c: Id): nat {
    if ids == [] then 0
    else Count(ids[..|ids| - 1], c) + if ids[|ids| - 1] == c then 1 else 0
  }

  /** How often `c` was post-processed. */
  ghost function StepCount(trace: seq<Step>, c: Id): nat {
    if trace == [] then 0
    else StepCount(trace[..|trace| - 1], c) + if trace[|trace| - 1].id == c then 1 else 0
  }

  /** How often an item node closed the container `c`. */
  ghost function CloseCount(trace: seq<Step>, c: Id): nat {
    if trace == [] then 0
    else CloseCount(trace[..|trace| - 1], c) + if trace[|trace| - 1].closes == Some(c) then 1 else 0
  }

  /** Streams that entered the queue, in order. */
  ghost function QueuedIds(trace: seq<Step>): seq<Id> {
    if trace == [] then []
    else
      var s := trace[|trace| - 1];
      QueuedIds(trace[..|trace| - 1]) + if s.queued then [s.id] else []
  }

  /** Streams that left the queue, in order. */
  ghost function ReleasedIds(events: seq<Event>): seq<Id> {
    if events == [] then []
    else
      var e := events[|events| - 1];
      ReleasedIds(events[..|events| - 1]) + if e.Done? && e.deferred then [e.id] else []
  }

  lemma {:induction false} DoneCountAppend(a: seq<Event>, b: seq<Event>, c: Id)
    ensures DoneCount(a + b, c) == DoneCount(a, c) + DoneCount(b, c)
  {
    if b == [] {
      assert a + b == a;
    } else {
      assert (a + b)[..|a + b| - 1] == a + b[..|b| - 1];
      DoneCountAppend(a, b[..|b| - 1], c);
    }
  }

  lemma {:induction false} CountAppend(a: seq<Id>, b: seq<Id>, c: Id)
    ensures Count(a + b, c) == Count(a, c) + Count(b, c)
  {
    if b == [] {
      assert a + b == a;
    } else {
      assert (a + b)[..|a + b| - 1] == a + b[..|b| - 1];
      CountAppend(a, b[..|b| - 1], c);
    }
  }

  lemma {:induction false} ReleasedAppend(a: seq<Event>, b: seq<Event>)
    ensures ReleasedIds(a + b) == ReleasedIds(a) + ReleasedIds(b)
  {
    if b == [] {
      assert a + b == a;
    } else {
      assert (a + b)[..|a + b| - 1] == a + b[..|b| - 1];
      ReleasedAppend(a, b[..|b| - 1]);
    }
  }

  lemma {:induction false} DeferredEvents(ids: seq<Id>, c: Id)
    ensures DoneCount(Deferred(ids), c) == Count(ids, c)
    ensures ReleasedIds(Deferred(ids)) == ids
  {
    if ids != [] {
      var init, last := ids[..|ids| - 1], ids[|ids| - 1];
      DeferredEvents(init, c);
      assert Deferred(ids) == Deferred(init) + [Done(last, true)];
      LastReleased(last, c);
      hide Deferred, DoneCount, ReleasedIds;
      DoneCountAppend(Deferred(init), [Done(last, true)], c);
      ReleasedAppend(Deferred(init), [Done(last, true)]);
      assert ids == init + [last];
    }
  }

  lemma {:induction false} LastReleased(id: Id, c: Id)
    ensures DoneCount([Done(id, true)], c) == (if id == c then 1 else 0) && ReleasedIds([Done(id, true)]) == [id]
  {
    assert [Done(id, true)][..0] == [];
  }

  /** Events that report nothing finished. */
  ghost predicate Silent(events: seq<Event>) {
    forall e :: e in events ==> !e.Done?
  }

  lemma {:induction false} SilentAppend(a: seq<Event>, b: seq<Event>, c: Id)
    requires Silent(b)
    ensures DoneCount(a + b, c) == DoneCount(a, c) && ReleasedIds(a + b) == ReleasedIds(a)
  {
    if b == [] {
      assert a + b == a;
    } else {
      assert (a + b)[..|a + b| - 1] == a + b[..|b| - 1];
      SilentAppend(a, b[..|b| - 1], c);
    }
  }

  // ----- the conservation law -----

  ghost predicate IsContainerId(g: Graph, c: Id) {
    c in g && IsContainer(g[c].kind)
  }

  ghost predicate Conserved(g: Graph, st: State, c: Id) {
    && DoneCount(st.events, c) + Count(st.partials, c)
         == (if IsContainerId(g, c) then 0 else StepCount(st.trace, c)) + CloseCount(st.trace, c)
    && (!IsContainerId(g, c) ==> CloseCount(st.trace, c) == 0)
    && QueuedIds(st.trace) == ReleasedIds(st.events) + st.partials
  }

  /** What the events of one processed entry report. */
  lemma {:induction false} StepEventCounts(
      k: Component, id: Id, a: Answer, released: seq<Id>, queued: bool, closes: Option<Id>, c: Id)
    requires k.kind != Message ==> released == []
    ensures var events := StepEvents(k, id, a, released, queued, closes);
            && DoneCount(events, c) == Count(released, c)
                 + (if id == c && !IsContainer(k.kind) && !queued then 1 else 0) + (if closes == Some(c) then 1 else 0)
            && ReleasedIds(events) == released
  {
    SpokenEvents(id, released, c);
    SingleEvents(id, c);
    if closes.Some? {
      SingleEvents(closes.value, c);
    }
    hide DoneCount, ReleasedIds, Deferred, UsesDefault;
    var spoken := if k.kind == Message then [Spoke(id)] + Deferred(released) else [];
    var default := if UsesDefault(k, a) then [Spoke(id)] else [];
    var own := if IsContainer(k.kind) || queued then [] else [Done(id, false)];
    var other := if closes.Some? then [Done(closes.value, false)] else [];
    assert ReleasedIds(spoken) == released && DoneCount(spoken, c) == Count(released, c);
    FourParts(spoken, default, own, other, c);
  }

  lemma {:induction false} SpokenEvents(id: Id, released: seq<Id>, c: Id)
    ensures DoneCount([Spoke(id)] + Deferred(released), c) == Count(released, c)
    ensures ReleasedIds([Spoke(id)] + Deferred(released)) == released
  {
    DoneCountAppend([Spoke(id)], Deferred(released), c);
    ReleasedAppend([Spoke(id)], Deferred(released));
    DeferredEvents(released, c);
    SingleEvents(id, c);
  }

  lemma {:induction false} SingleEvents(id: Id, c: Id)
    ensures DoneCount([Spoke(id)], c) == 0 && ReleasedIds([Spoke(id)]) == []
    ensures DoneCount([Done(id, false)], c) == (if id == c then 1 else 0) && ReleasedIds([Done(id, false)]) == []
    ensures DoneCount([], c) == 0 && ReleasedIds([]) == []
  {
    assert [Spoke(id)][..0] == [] && [Done(id, false)][..0] == [];
  }

  lemma {:induction false} FourParts(a: seq<Event>, b: seq<Event>, d: seq<Event>, e: seq<Event>, c: Id)
    ensures DoneCount(a + b + d + e, c) == DoneCount(a, c) + DoneCount(b, c) + DoneCount(d, c) + DoneCount(e, c)
    ensures ReleasedIds(a + b + d + e) == ReleasedIds(a) + ReleasedIds(b) + ReleasedIds(d) + ReleasedIds(e)
  {
    DoneCountAppend(a + b + d, e, c);
    DoneCountAppend(a + b, d, c);
    DoneCountAppend(a, b, c);
    ReleasedAppend(a + b + d, e);
    ReleasedAppend(a + b, d);
    ReleasedAppend(a, b);
  }

  lemma {:induction false} TraceSnoc(trace: seq<Step>, step: Step, c: Id)
    ensures StepCount(trace + [step], c) == StepCount(trace, c) + if step.id == c then 1 else 0
    ensures CloseCount(trace + [step], c) == CloseCount(trace, c) + if step.closes == Some(c) then 1 else 0
    ensures QueuedIds(trace + [step]) == QueuedIds(trace) + if step.queued then [step.id] else []
  {
    assert (trace + [step])[..|trace|] == trace;
  }

  /** One step as the law sees it: `n` streams leave, `step` is traced and queues or reports itself. */
  lemma {:induction false} LawKept(g: Graph, st: State, r: State, n: nat, step: Step, events: seq<Event>, c: Id)
    requires Conserved(g, st, c) && n <= |st.partials|
    requires r.trace == st.trace + [step] && r.events == st.events + events
    requires r.partials == st.partials[n..] + if step.queued then [step.id] else []
    requires step.queued ==> !IsContainerId(g, step.id)
    requires step.closes.Some? ==> IsContainerId(g, step.closes.value)
    requires DoneCount(events, c) == Count(st.partials[..n], c)
               + (if step.id == c && !IsContainerId(g, step.id) && !step.queued then 1 else 0)
               + (if step.closes == Some(c) then 1 else 0)
    requires ReleasedIds(events) == st.partials[..n]
    ensures Conserved(g, r, c)
  {
    TraceSnoc(st.trace, step, c);
    DoneCountAppend(st.events, events, c);
    ReleasedAppend(st.events, events);
    var queued := if step.queued then [step.id] else [];
    QueueMoves(st.partials, n, queued, c);
    assert step.queued ==> Count(queued, c) == if step.id == c then 1 else 0 by {
      assert [step.id][..0] == [];
    }
    hide DoneCount, Count, StepCount, CloseCount, ReleasedIds, QueuedIds, IsContainerId;
    QueueOrder(ReleasedIds(st.events), st.partials, n, queued);
  }

  lemma {:induction false} PostStepConserves(g: Graph, st: State, i: nat, a: Answer, c: Id)
    requires WellFormed(g) && i < |st.path| && st.path[i] in g && Conserved(g, st, c)
    ensures Conserved(g, PostStep(g, st, i, a), c)
  {
    var r, id, k := PostStep(g, st, i, a), st.path[i], g[st.path[i]];
    var n := ReleaseCount(k, id, a, st.partials);
    var step := r.trace[|st.trace|];
    var events := StepEvents(k, id, a, st.partials[..n], step.queued, step.closes);
    assert r.events == st.events + events;
    assert r.trace == st.trace + [step] && r.partials == st.partials[n..] + if step.queued then [step.id] else [];
    hide PostStep, StepEvents, Drained, Conserved;
    StepEventCounts(k, id, a, st.partials[..n], step.queued, step.closes, c);
    LawKept(g, st, r, n, step, events, c);
  }

  lemma {:induction false} QueueMoves(partials: seq<Id>, n: nat, queued: seq<Id>, c: Id)
    requires n <= |partials|
    ensures Count(partials[..n], c) + Count(partials[n..] + queued, c) == Count(partials, c) + Count(queued, c)
    ensures Count([], c) == 0
  {
    CountAppend(partials[n..], queued, c);
    CountAppend(partials[..n], partials[n..], c);
    assert partials[..n] + partials[n..] == partials;
  }

  lemma {:induction false} QueueOrder(released: seq<Id>, partials: seq<Id>, n: nat, queued: seq<Id>)
    requires n <= |partials|
    ensures (released + partials) + queued == (released + partials[..n]) + (partials[n..] + queued)
  {
  }

  lemma {:induction false} PostBatchConserves(g: Graph, st: State, from: nat, end: nat, answer: nat -> Answer, c: Id)
    requires WellFormed(g) && from <= end <= |st.path| && Known(g, st.path[from..end]) && Conserved(g, st, c)
    ensures Conserved(g, PostBatch(g, st, from, end, answer), c)
    decreases end - from
  {
    if from < end {
      PostBatchUnfolds(g, st, from, end, answer);
      PostStepConserves(g, st, from, answer(from), c);
      hide PostStep, Conserved;
      PostBatchConserves(g, PostStep(g, st, from, answer(from)), from + 1, end, answer, c);
    }
  }

  lemma {:induction false} SilentStep(g: Graph, st: State, r: State, tail: seq<Event>, c: Id)
    requires Conserved(g, st, c) && Silent(tail)
    requires r.events == st.events + tail && r.trace == st.trace && r.partials == st.partials
    ensures Conserved(g, r, c)
  {
    SilentAppend(st.events, tail, c);
  }

  lemma {:induction false} ProcessedConserves(g: Graph, st: State, o: BatchOracle, c: Id)
    requires WellFormed(g) && st.idx <= |st.path| && Known(g, st.path[st.idx..]) && Conserved(g, st, c)
    ensures Conserved(g, Processed(g, st, o), c)
  {
    var admitted := Admitted(g, st);
    SilentStep(g, st, admitted, StartEvents(st.path[st.idx..]), c);
    hide Conserved;
    PostBatchConserves(g, admitted, st.idx, |admitted.path|, o.answer, c);
  }

  lemma {:induction false} BatchStepConserves(g: Graph, st: State, o: BatchOracle, c: Id)
    requires WellFormed(g) && st.status == Running && Proper(st) && Conserved(g, st, c)
    ensures Conserved(g, BatchStep(g, st, o), c)
  {
    hide Conserved, Processed, Survivors, Settle, Silent;
    StepShape(g, st, o);
    var r, batch := BatchStep(g, st, o), st.path[st.idx..];
    if Known(g, batch) && !o.canceled {
      var mid := Processed(g, st, o);
      ProcessedConserves(g, st, o, c);
      ProcessedKeeps(g, st, o);
      SettleEvents(g, mid, st.idx + |Survivors(g, st)|, o.needsInput, Survivors(g, st));
      var tail :| Silent(tail) && r.events == mid.events + tail;
      SilentStep(g, mid, r, tail, c);
    } else {
      StartEventsAreSilent(batch);
      StartEventsAreSilent(KnownPrefix(g, batch));
      SilentStep(g, st, r, StartEvents(if Known(g, batch) then batch else KnownPrefix(g, batch)), c);
    }
  }

  lemma StartEventsAreSilent(ids: seq<Id>)
    ensures Silent(StartEvents(ids))
  {
  }

  lemma {:induction false} SettleEvents(g: Graph, st: State, end: nat, needsInput: bool, batch: seq<Id>)
    requires st.idx <= end <= |st.path|
    ensures exists tail :: Silent(tail) && Settle(g, st, end, needsInput, batch).events == st.events + tail
  {
    assert st.events + [] == st.events;
    assert Silent([]) && Silent([WorkflowFinished]) && Silent([AskUser]);
  }

  lemma {:induction false} RunConserves(g: Graph, st: State, oracle: seq<BatchOracle>, c: Id)
    requires WellFormed(g) && Proper(st) && Conserved(g, st, c)
    ensures Conserved(g, Run(g, st, oracle), c)
    decreases |oracle|
  {
    if oracle != [] && st.status == Running {
      BatchStepIsProper(g, st, oracle[0]);
      BatchStepConserves(g, st, oracle[0], c);
      hide BatchStep, Conserved;
      RunConserves(g, BatchStep(g, st, oracle[0]), oracle[1..], c);
    }
  }

  // ----- main result -----

  /** Events and queue account for what was post-processed, and the queue keeps its order. */
  ghost predicate Balanced(g: Graph, st: State, c: Id) {
    && (!IsContainerId(g, c) ==> DoneCount(st.events, c) + Count(st.partials, c) == StepCount(st.trace, c))
    && (IsContainerId(g, c) ==> DoneCount(st.events, c) + Count(st.partials, c) == CloseCount(st.trace, c))
    && QueuedIds(st.trace) == ReleasedIds(st.events) + st.partials
  }

  lemma {:induction false} ConservedIsBalanced(g: Graph, st: State, c: Id)
    requires Conserved(g, st, c)
    ensures Balanced(g, st, c)
  {
    hide DoneCount, Count, StepCount, CloseCount, QueuedIds, ReleasedIds;
  }

  lemma {:induction false} StartConserved(g: Graph, path: seq<Id>, c: Id)
    ensures Conserved(g, Start(path), c)
  {
    assert [WorkflowStarted][..0] == [];
    assert DoneCount([WorkflowStarted], c) == 0 && ReleasedIds([WorkflowStarted]) == [];
  }

  /** The state inside a batch, when the path entries below `k` have been post-processed. */
  ghost function WithinBatch(g: Graph, st: State, o: BatchOracle, k: nat): State
    requires WellFormed(g) && st.idx <= |st.path| && Known(g, st.path[st.idx..])
    requires st.idx <= k <= |Admitted(g, st).path|
  {
    PrefixIsKnown(g, Admitted(g, st).path, st.idx, k);
    PostBatch(g, Admitted(g, st), st.idx, k, o.answer)
  }

  lemma {:induction false} PrefixIsKnown(g: Graph, path: seq<Id>, from: nat, k: nat)
    requires from <= k <= |path| && Known(g, path[from..])
    ensures Known(g, path[from..k])
  {
    assert path[from..k] == path[from..][..k - from];
  }

  lemma {:induction false} WithinBatchConserves(g: Graph, st: State, o: BatchOracle, k: nat, c: Id)
    requires WellFormed(g) && st.idx <= |st.path| && Known(g, st.path[st.idx..])
    requires st.idx <= k <= |Admitted(g, st).path| && Conserved(g, st, c)
    ensures Conserved(g, WithinBatch(g, st, o, k), c)
  {
    var admitted := Admitted(g, st);
    PrefixIsKnown(g, admitted.path, st.idx, k);
    StartEventsAreSilent(st.path[st.idx..]);
    SilentStep(g, st, admitted, StartEvents(st.path[st.idx..]), c);
    hide Conserved;
    PostBatchConserves(g, admitted, st.idx, k, o.answer, c);
  }

  /**
   In every reachable state, ended or not, between two batches and after every entry post-processed
   within one: a component that is no container has as many node_finished events and queued streams
   as it was post-processed; a container has one event for each time an item node closed it; and
   streams are reported in the order in which they queued.
   */
  lemma {:induction false} CompletionConservation(
      g: Graph, path: seq<Id>, oracle: seq<BatchOracle>, o: BatchOracle, k: nat, c: Id)
    requires WellFormed(g)
    ensures var r := Run(g, Start(path), oracle);
            && Balanced(g, r, c)
            && (r.status == Running && Known(g, r.path[r.idx..]) && r.idx <= k <= |Admitted(g, r).path| ==>
                  Balanced(g, WithinBatch(g, r, o, k), c))
  {
    StartConserved(g, path, c);
    RunConserves(g, Start(path), oracle, c);
    var r := Run(g, Start(path), oracle);
    ConservedIsBalanced(g, r, c);
    hide Run, Conserved, Balanced, Known, WellFormed, Admitted;
    if r.status == Running && Known(g, r.path[r.idx..]) && r.idx <= k <= |Admitted(g, r).path| {
      WithinBatchConserves(g, r, o, k, c);
      ConservedIsBalanced(g, WithinBatch(g, r, o, k), c);
    }
  }
}
