/**
 The run of a canvas as a state machine (agent/canvas.py, `_run_impl` and `_run_batch`).

 One step is one batch: admission pops entries whose references are not yet in the path, the
 survivors run, and post-processing appends what comes next. What components return is decided by
 an oracle; a run is a fold of the step over the oracle's answers, so every state the program can
 reach between two batches is a `Run` for some oracle.
 */
module Scheduler {
  import opened Wrappers
  import opened CanvasGraph
  import Text

  // ----- the oracle -----

  /**
   What one component shows during post-processing: its error ("" for none), the components whose
   content is a stream at that moment, the branch it chose, and whether an item node has ended.
   */
  datatype Answer = Answer(error: string, streaming: set<Id>, next: seq<Id>, ended: bool)

  /** Answers by path position, whether the run was canceled, whether pending forms still need input. */
  datatype BatchOracle = BatchOracle(canceled: bool, answer: nat -> Answer, needsInput: bool)

  // ----- states -----

  datatype Event =
    | WorkflowStarted | Started(id: Id) | Spoke(id: Id)
    | Done(id: Id, deferred: bool)
    | AskUser | WorkflowFinished

  datatype Status = Running | Finished | Failed | Suspended | Canceled | Crashed

  /**
   One post-processed path entry: whether it ran on to its downstream list, queued its stream, closed
   its container; what it showed, and how long the path was then.
   */
  datatype Step = Step(id: Id, plain: bool, queued: bool, closes: Option<Id>, answer: Answer, length: nat)

  /** `trace` and `batches` record history: the entries post-processed so far, the completed batches. */
  datatype State = State(path: seq<Id>, idx: nat, partials: seq<Id>, error: string, events: seq<Event>,
                         status: Status, trace: seq<Step>, batches: seq<seq<Id>>)

  // ----- admission -----

  /** The part of `batch` that admission leaves in the path above `below`. */
  function Admit(g: Graph, below: seq<Id>, batch: seq<Id>): seq<Id>
    requires Known(g, batch)
    decreases |batch|
  {
    if batch == [] then []
    else
      var id := batch[0];
      var first := if below == [] then id else below[0];
      if IsExempt(g[id].kind) || !Missing(g, id, below) || IsFillUpId(first) then
        [id] + Admit(g, below + [id], batch[1..])
      else
        Admit(g, below, batch[1..])
  }

  // ----- post-processing -----

  /** `_append_path` */
  function Append(path: seq<Id>, id: Id): seq<Id> {
    if path != [] && path[|path| - 1] == id then path else path + [id]
  }

  /** `_extend_path` */
  function Extend(path: seq<Id>, ids: seq<Id>): seq<Id>
    decreases |ids|
  {
    if ids == [] then path else Extend(Append(path, ids[0]), ids[1..])
  }

  /** How many partials at the head of the queue have stopped streaming. */
  function Drained(partials: seq<Id>, streaming: set<Id>): (n: nat)
    ensures n <= |partials|
  {
    if partials == [] || partials[0] in streaming then 0 else 1 + Drained(partials[1..], streaming)
  }

  function Deferred(ids: seq<Id>): seq<Event> {
    seq(|ids|, i requires 0 <= i < |ids| => Done(ids[i], true))
  }

  /** A Message has been read to its end by the time its own content is looked at. */
  function Live(c: Component, id: Id, a: Answer): set<Id> {
    if c.kind == Message then a.streaming - {id} else a.streaming
  }

  /** The error goes to the handler's target list. */
  predicate GoesTo(c: Component, a: Answer) {
    a.error != "" && c.handler.Some? && c.handler.value.goto != []
  }

  predicate UsesDefault(c: Component, a: Answer) {
    a.error != "" && c.handler.Some? && c.handler.value.goto == [] && c.handler.value.hasDefault
  }

  predicate Unhandled(c: Component, a: Answer) {
    a.error != "" && !GoesTo(c, a) && !UsesDefault(c, a)
  }

  /** The if-chain that picks what is offered to the path, and whether its last branch was taken. */
  function Offer(g: Graph, c: Component, a: Answer): (seq<Id>, bool)
    requires WellFormed(g)
    requires c.parent.Some? ==> c.parent.value in g
    requires IsItem(c.kind) || c.kind == ExitLoop ==> c.parent.Some?
  {
    if IsItem(c.kind) && a.ended then (g[c.parent.value].downstream, false)
    else if c.kind == Branching then (a.next, false)
    else if IsContainer(c.kind) then ([c.start], false)
    else if c.kind == ExitLoop && g[c.parent.value].kind == Loop then (g[c.parent.value].downstream, false)
    else if c.downstream == [] && c.parent.Some? then ([g[c.parent.value].start], false)
    else (c.downstream, true)
  }

  /** How many streams a processed entry releases: only a Message looks at the queue. */
  function ReleaseCount(c: Component, id: Id, a: Answer, partials: seq<Id>): (n: nat)
    ensures n <= |partials|
  {
    if c.kind == Message then Drained(partials, Live(c, id, a)) else 0
  }

  /** What a processed entry emits: messages, released streams, its own completion, its container's. */
  function StepEvents(
      c: Component, id: Id, a: Answer, released: seq<Id>, queued: bool, closes: Option<Id>): seq<Event> {
    (if c.kind == Message then [Spoke(id)] + Deferred(released) else [])
    + (if UsesDefault(c, a) then [Spoke(id)] else [])
    + (if IsContainer(c.kind) || queued then [] else [Done(id, false)])
    + (if closes.Some? then [Done(closes.value, false)] else [])
  }

  /** Post-processing of the path entry at position `i`. */
  function PostStep(g: Graph, st: State, i: nat, a: Answer): (r: State)
    requires WellFormed(g) && i < |st.path| && st.path[i] in g
  {
    var id := st.path[i];
    var c := g[id];
    var n := ReleaseCount(c, id, a, st.partials);
    var error := if Unhandled(c, a) then a.error else st.error;
    var queued := !IsContainer(c.kind) && id in Live(c, id, a) && error == "";
    var closes := if IsItem(c.kind) && a.ended then c.parent else None;
    var (ids, plain) := Offer(g, c, a);
    st.(path := if GoesTo(c, a) then st.path + c.handler.value.goto else Extend(st.path, ids),
        partials := st.partials[n..] + if queued then [id] else [],
        error := error,
        events := st.events + StepEvents(c, id, a, st.partials[..n], queued, closes),
        trace := st.trace + [Step(id, plain && !GoesTo(c, a), queued, closes, a, |st.path|)])
  }

  /** Post-processing of the entries `from..end`; what it appends lies above `end`. */
  function PostBatch(g: Graph, st: State, from: nat, end: nat, answer: nat -> Answer): State
    requires WellFormed(g) && from <= end <= |st.path| && Known(g, st.path[from..end])
    decreases end - from
  {
    if from == end then st
    else
      assert st.path[from] in st.path[from..end];
      var next := PostStep(g, st, from, answer(from));
      PostStepExtends(g, st, from, answer(from));
      assert next.path[from + 1..end] == st.path[from..end][1..];
      PostBatch(g, next, from + 1, end, answer)
  }

  lemma {:induction false} ExtendExtends(path: seq<Id>, ids: seq<Id>)
    ensures path <= Extend(path, ids)
    ensures forall id :: id in Extend(path, ids)[|path|..] ==> id in ids
    decreases |ids|
  {
    if ids != [] {
      var next := Append(path, ids[0]);
      ExtendExtends(next, ids[1..]);
      forall id | id in Extend(path, ids)[|path|..] ensures id in ids {
        assert Extend(path, ids)[|path|..] == next[|path|..] + Extend(next, ids[1..])[|next|..];
      }
    }
  }

  lemma {:induction false} PostStepExtends(g: Graph, st: State, i: nat, a: Answer)
    requires WellFormed(g) && i < |st.path| && st.path[i] in g
    ensures var r := PostStep(g, st, i, a);
            st.path <= r.path && r.idx == st.idx && r.status == st.status && r.batches == st.batches
  {
    ExtendExtends(st.path, Offer(g, g[st.path[i]], a).0);
  }

  // ----- suspension -----

  function FillUps(g: Graph, ids: seq<Id>): seq<Id> {
    if ids == [] then []
    else (if ids[0] in g && g[ids[0]].kind == UserFillUp then [ids[0]] else []) + FillUps(g, ids[1..])
  }

  function Others(g: Graph, ids: seq<Id>): seq<Id> {
    if ids == [] then []
    else (if ids[0] in g && g[ids[0]].kind != UserFillUp then [ids[0]] else []) + Others(g, ids[1..])
  }

  // ----- one batch -----

  const CANCELED := "Task has been canceled"

  function StartEvents(ids: seq<Id>): seq<Event> {
    seq(|ids|, i requires 0 <= i < |ids| => Started(ids[i]))
  }

  /** The state after admission and post-processing of one batch. */
  function Processed(g: Graph, st: State, o: BatchOracle): State
    requires WellFormed(g) && st.idx <= |st.path| && Known(g, st.path[st.idx..])
  {
    var admitted := Admitted(g, st);
    PostBatch(g, admitted, st.idx, |admitted.path|, o.answer)
  }

  /** The state after admission alone. */
  function Admitted(g: Graph, st: State): (r: State)
    requires st.idx <= |st.path| && Known(g, st.path[st.idx..])
    ensures |r.path| == st.idx + |Survivors(g, st)| && r.path[..st.idx] == st.path[..st.idx]
    ensures r.path[st.idx..] == r.path[st.idx..|r.path|] == Survivors(g, st) && Known(g, Survivors(g, st))
  {
    AdmitIsKnown(g, st.path[..st.idx], st.path[st.idx..]);
    st.(path := st.path[..st.idx] + Survivors(g, st), events := st.events + StartEvents(st.path[st.idx..]))
  }

  lemma {:induction false} AdmitIsKnown(g: Graph, below: seq<Id>, batch: seq<Id>)
    requires Known(g, batch)
    ensures Known(g, Admit(g, below, batch)) && |Admit(g, below, batch)| <= |batch|
    decreases |batch|
  {
    if batch != [] {
      AdmitIsKnown(g, below + [batch[0]], batch[1..]);
      AdmitIsKnown(g, below, batch[1..]);
    }
  }

  /** The survivors of the batch at `st`. */
  function Survivors(g: Graph, st: State): seq<Id>
    requires st.idx <= |st.path| && Known(g, st.path[st.idx..])
  {
    Admit(g, st.path[..st.idx], st.path[st.idx..])
  }

  /** The end of the loop body and the loop test. */
  function Settle(g: Graph, st: State, end: nat, needsInput: bool, batch: seq<Id>): State
    requires st.idx <= end <= |st.path|
  {
    if st.error != "" then
      st.(path := st.path[..st.idx], status := Failed,
          events := st.events + if Text.Contains(st.error, CANCELED) then [WorkflowFinished] else [])
    else
      var pending := st.path[end..];
      var done := st.(idx := end, batches := st.batches + [batch]);
      if FillUps(g, pending) != [] && needsInput then
        done.(path := FillUps(g, pending) + Others(g, pending), status := Suspended, events := st.events + [AskUser])
      else if end == |st.path| then
        done.(status := Finished, events := st.events + [WorkflowFinished])
      else
        done
  }

  /** Unfolds one step of post-processing, for inductions over a batch. */
  lemma {:induction false} PostBatchUnfolds(g: Graph, st: State, from: nat, end: nat, answer: nat -> Answer)
    requires WellFormed(g) && from < end <= |st.path| && Known(g, st.path[from..end])
    ensures st.path[from] in g
    ensures var next := PostStep(g, st, from, answer(from));
            && st.path <= next.path && next.idx == st.idx && next.status == st.status && next.batches == st.batches
            && Known(g, next.path[from + 1..end])
            && PostBatch(g, st, from, end, answer) == PostBatch(g, next, from + 1, end, answer)
  {
    assert st.path[from] in st.path[from..end];
    var next := PostStep(g, st, from, answer(from));
    PostStepExtends(g, st, from, answer(from));
    hide PostStep;
    assert next.path[from + 1..end] == st.path[from..end][1..];
  }

  lemma {:induction false} PostBatchKeeps(g: Graph, st: State, from: nat, end: nat, answer: nat -> Answer)
    requires WellFormed(g) && from <= end <= |st.path| && Known(g, st.path[from..end])
    ensures var r := PostBatch(g, st, from, end, answer);
            && st.path <= r.path
            && r.idx == st.idx && r.status == st.status && r.batches == st.batches
    decreases end - from
  {
    if from < end {
      PostBatchUnfolds(g, st, from, end, answer);
      hide PostStep;
      PostBatchKeeps(g, PostStep(g, st, from, answer(from)), from + 1, end, answer);
    }
  }

  lemma {:induction false} ProcessedKeeps(g: Graph, st: State, o: BatchOracle)
    requires WellFormed(g) && st.idx <= |st.path| && Known(g, st.path[st.idx..])
    ensures var r := Processed(g, st, o);
            && st.path[..st.idx] + Survivors(g, st) <= r.path
            && r.idx == st.idx && r.status == st.status && r.batches == st.batches
  {
    var admitted := Admitted(g, st);
    PostBatchKeeps(g, admitted, st.idx, |admitted.path|, o.answer);
  }

  /** The processed part of the path after one more batch. */
  lemma {:induction false} ProcessedPrefix(g: Graph, st: State, o: BatchOracle)
    requires WellFormed(g) && st.idx < |st.path| && Known(g, st.path[st.idx..])
    ensures var r, batch := Processed(g, st, o), Survivors(g, st);
            && st.idx + |batch| <= |r.path|
            && r.path[..st.idx + |batch|] == st.path[..st.idx] + batch
            && r.path[..st.idx] == st.path[..st.idx]
  {
    ProcessedKeeps(g, st, o);
    var r, batch := Processed(g, st, o), Survivors(g, st);
    assert st.path[..st.idx] + batch <= r.path;
    hide Processed, Survivors;
    assert |st.path[..st.idx] + batch| == st.idx + |batch|;
    assert r.path[..st.idx] == (st.path[..st.idx] + batch)[..st.idx];
  }

  /** One pass of the main loop. */
  function BatchStep(g: Graph, st: State, o: BatchOracle): State
    requires WellFormed(g) && st.idx < |st.path|
  {
    var batch := st.path[st.idx..];
    if !Known(g, batch) then
      st.(status := Crashed, events := st.events + StartEvents(KnownPrefix(g, batch)))
    else if o.canceled then
      st.(status := Canceled, events := st.events + StartEvents(batch))
    else
      ProcessedKeeps(g, st, o);
      Settle(g, Processed(g, st, o), st.idx + |Survivors(g, st)|, o.needsInput, Survivors(g, st))
  }

  /** The path bookkeeping of one step, by how it ends. */
  lemma {:induction false} StepShape(g: Graph, st: State, o: BatchOracle)
    requires WellFormed(g) && st.status == Running && Proper(st)
    ensures var r := BatchStep(g, st, o);
            && (r.status == Crashed || r.status == Canceled <==> !Known(g, st.path[st.idx..]) || o.canceled)
            && (r.status == Crashed || r.status == Canceled ==>
                  r.path == st.path && r.idx == st.idx && r.batches == st.batches)
            && (r.status == Failed ==>
                  r.path == st.path[..st.idx] && r.idx == st.idx && r.batches == st.batches)
            && (r.status == Running || r.status == Finished ==>
                  && r.path == Processed(g, st, o).path
                  && r.idx == st.idx + |Survivors(g, st)| <= |r.path|
                  && r.batches == st.batches + [Survivors(g, st)])
            && (if Known(g, st.path[st.idx..]) && !o.canceled
                then r.trace == Processed(g, st, o).trace && r.partials == Processed(g, st, o).partials
                else r.trace == st.trace && r.partials == st.partials)
            && (r.status == Running ==> r.idx < |r.path|)
            && (r.status == Finished ==> r.idx == |r.path|)
            && (r.status != Suspended ==> st.idx <= |r.path| && r.path[..st.idx] == st.path[..st.idx])
  {
    if Known(g, st.path[st.idx..]) && !o.canceled {
      ProcessedPrefix(g, st, o);
      ProcessedKeeps(g, st, o);
      hide Processed, Survivors;
    }
  }

  // ----- runs -----

  predicate IsResume(path: seq<Id>) {
    path != [] && IsFillUpId(path[0])
  }

  /** The state in which the main loop is entered, on a saved path. */
  function Start(path: seq<Id>): State {
    if IsResume(path) then
      State(path, 0, [], "", [], Running, [], [])
    else
      State(path + [BEGIN], |path|, [], "", [WorkflowStarted], Running, [], [])
  }

  ghost predicate Proper(st: State) {
    st.status == Running ==> st.idx < |st.path|
  }

  lemma {:induction false} BatchStepIsProper(g: Graph, st: State, o: BatchOracle)
    requires WellFormed(g) && st.status == Running && Proper(st)
    ensures Proper(BatchStep(g, st, o))
  {
    if Known(g, st.path[st.idx..]) && !o.canceled {
      ProcessedKeeps(g, st, o);
    }
  }

  function Run(g: Graph, st: State, oracle: seq<BatchOracle>): (r: State)
    requires WellFormed(g) && Proper(st)
    ensures Proper(r)
    decreases |oracle|
  {
    if oracle == [] || st.status != Running then st
    else
      BatchStepIsProper(g, st, oracle[0]);
      Run(g, BatchStep(g, st, oracle[0]), oracle[1..])
  }
}
