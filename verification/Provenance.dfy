/** Where the entries of a path come from, and what every executed entry leads to. */
module Provenance {
  import opened Wrappers
  import opened CanvasGraph
  import opened Scheduler
  import Admission
  import WakeUp
  import Suspension
  import Termination

  // ----- handing on -----

  /** An error with targets to go to instead. */
  predicate Jumps(g: Graph, s: Step) {
    s.id in g && s.answer.error != "" && g[s.id].handler.Some? && g[s.id].handler.value.goto != []
  }

  /** The item node of an iteration or loop that has come to its end. */
  predicate EndsItem(g: Graph, s: Step) {
    s.id in g && (g[s.id].kind == IterationItem || g[s.id].kind == LoopItem) && s.answer.ended
  }

  predicate LeavesLoop(g: Graph, s: Step) {
    s.id in g && g[s.id].kind == ExitLoop && g[s.id].parent.Some? && g[s.id].parent.value in g
    && g[g[s.id].parent.value].kind == Loop
  }

  /** None of the kinds of node that choose for themselves. */
  predicate IsOrdinaryTurn(g: Graph, s: Step) {
    s.id in g && !EndsItem(g, s) && !LeavesLoop(g, s)
    && g[s.id].kind != Branching && g[s.id].kind != Iteration && g[s.id].kind != Loop
  }

  function DownstreamOf(g: Graph, id: Option<Id>): seq<Id> {
    if id.Some? && id.value in g then g[id.value].downstream else []
  }

  /** What an executed entry hands on, case by case. */
  ghost predicate HandsOn(g: Graph, s: Step, x: Id) {
    s.id in g &&
    var c := g[s.id];
    || (Jumps(g, s) && x in c.handler.value.goto)
    || (!Jumps(g, s) && EndsItem(g, s) && x in DownstreamOf(g, c.parent))
    || (!Jumps(g, s) && LeavesLoop(g, s) && x in DownstreamOf(g, c.parent))
    || (!Jumps(g, s) && c.kind == Branching && x in s.answer.next)
    || (!Jumps(g, s) && (c.kind == Iteration || c.kind == Loop) && x == c.start)
    || (!Jumps(g, s) && IsOrdinaryTurn(g, s) && c.downstream == [] && c.parent.Some? && c.parent.value in g
        && x == g[c.parent.value].start)
    || (!Jumps(g, s) && IsOrdinaryTurn(g, s) && x in c.downstream)
  }

  /** Post-processing appends only what the entry hands on, and everything it hands on stands at the end of the path. */
  lemma {:induction false} StepHandsOn(g: Graph, st: State, i: nat, a: Answer)
    requires WellFormed(g) && i < |st.path| && st.path[i] in g
    ensures var r := PostStep(g, st, i, a);
            && |r.trace| == |st.trace| + 1 && r.trace[..|st.trace|] == st.trace && st.path <= r.path
            && var s := r.trace[|st.trace|];
               && s.id == st.path[i] && s.answer == a && s.length == |st.path|
               && (forall q :: |st.path| <= q < |r.path| ==> HandsOn(g, s, r.path[q]))
               && forall x :: HandsOn(g, s, x) ==> StandsFrom(r.path, |st.path| - 1, x)
  {
    var r, c := PostStep(g, st, i, a), g[st.path[i]];
    var ids := Offer(g, c, a).0;
    var s := r.trace[|st.trace|];
    assert s.id == st.path[i] && s.answer == a;
    OfferIsHandedOn(g, s);
    assert r.path == if GoesTo(c, a) then st.path + c.handler.value.goto else Extend(st.path, ids);
    hide PostStep, HandsOn, Offer, WellFormed;
    if GoesTo(c, a) {
      forall x | x in c.handler.value.goto ensures StandsFrom(r.path, |st.path| - 1, x) {
        var k :| 0 <= k < |c.handler.value.goto| && c.handler.value.goto[k] == x;
        assert r.path[|st.path| + k] == x;
      }
    } else {
      ExtendExtends(st.path, ids);
      forall q | |st.path| <= q < |r.path| ensures r.path[q] in ids {
        assert r.path[q] == r.path[|st.path|..][q - |st.path|];
      }
      forall x | x in ids ensures StandsFrom(r.path, |st.path| - 1, x) {
        WakeUp.ExtendReaches(st.path, ids, x);
      }
    }
  }

  ghost predicate StandsFrom(path: seq<Id>, low: int, x: Id) {
    exists q :: 0 <= q < |path| && low <= q && path[q] == x
  }

  lemma {:induction false} OfferIsHandedOn(g: Graph, s: Step)
    requires WellFormed(g) && s.id in g
    ensures var c := g[s.id];
            var ids := if GoesTo(c, s.answer) then c.handler.value.goto else Offer(g, c, s.answer).0;
            forall x :: HandsOn(g, s, x) <==> x in ids
  {
  }

  // ----- a batch -----

  /** Some entry of the trace hands `x` on. */
  ghost predicate Handed(g: Graph, trace: seq<Step>, x: Id) {
    exists j :: 0 <= j < |trace| && HandsOn(g, trace[j], x)
  }

  /**
   Everything that the entries of the trace from `from` on hand on stands in the path, from where
   its end was then.
   */
  ghost predicate AllStand(g: Graph, trace: seq<Step>, from: nat, path: seq<Id>) {
    forall k, x :: from <= k < |trace| && HandsOn(g, trace[k], x) ==> StandsFrom(path, trace[k].length - 1, x)
  }

  ghost predicate AppendedAreHanded(g: Graph, trace: seq<Step>, path: seq<Id>, low: nat) {
    forall q :: low <= q < |path| ==> Handed(g, trace, path[q])
  }

  lemma {:induction false} HandedLater(g: Graph, trace: seq<Step>, longer: seq<Step>, x: Id)
    requires trace <= longer && Handed(g, trace, x)
    ensures Handed(g, longer, x)
  {
    hide HandsOn;
  }

  lemma {:induction false} StandsLater(path: seq<Id>, longer: seq<Id>, low: int, x: Id)
    requires path <= longer && StandsFrom(path, low, x)
    ensures StandsFrom(longer, low, x)
  {
  }

  lemma {:induction false} StepKeepsHanding(g: Graph, st: State, i: nat, a: Answer, from: nat, low: nat)
    requires WellFormed(g) && i < |st.path| && st.path[i] in g && low <= |st.path| && from <= |st.trace|
    requires AppendedAreHanded(g, st.trace, st.path, low) && AllStand(g, st.trace, from, st.path)
    ensures var r := PostStep(g, st, i, a);
            && st.trace <= r.trace && st.path <= r.path
            && AppendedAreHanded(g, r.trace, r.path, low) && AllStand(g, r.trace, from, r.path)
  {
    StepHandsOn(g, st, i, a);
    var r := PostStep(g, st, i, a);
    hide PostStep, HandsOn, WellFormed, StandsFrom;
    forall q | low <= q < |r.path| ensures Handed(g, r.trace, r.path[q]) {
      if q < |st.path| {
        HandedLater(g, st.trace, r.trace, st.path[q]);
      } else {
        assert HandsOn(g, r.trace[|st.trace|], r.path[q]);
      }
    }
    forall k, x | from <= k < |r.trace| && HandsOn(g, r.trace[k], x)
      ensures StandsFrom(r.path, r.trace[k].length - 1, x)
    {
      if k < |st.trace| {
        assert r.trace[k] == st.trace[k];
        StandsLater(st.path, r.path, r.trace[k].length - 1, x);
      }
    }
  }

  lemma {:induction false} BatchKeepsHanding(
      g: Graph, st: State, i: nat, end: nat, answer: nat -> Answer, from: nat, low: nat)
    requires WellFormed(g) && i <= end <= |st.path| && Known(g, st.path[i..end]) && low <= |st.path|
    requires from <= |st.trace|
    requires AppendedAreHanded(g, st.trace, st.path, low) && AllStand(g, st.trace, from, st.path)
    ensures var r := PostBatch(g, st, i, end, answer);
            && st.trace <= r.trace && st.path <= r.path
            && AppendedAreHanded(g, r.trace, r.path, low) && AllStand(g, r.trace, from, r.path)
    decreases end - i
  {
    if i < end {
      PostBatchUnfolds(g, st, i, end, answer);
      hide PostStep, PostBatch, WellFormed, Known, AppendedAreHanded, AllStand;
      StepKeepsHanding(g, st, i, answer(i), from, low);
      BatchKeepsHanding(g, PostStep(g, st, i, answer(i)), i + 1, end, answer, from, low);
    } else {
      hide PostStep, AppendedAreHanded, AllStand;
    }
  }

  /** After a batch, everything above it was handed on by one of its entries, and everything they hand on stands. */
  lemma {:induction false} ProcessedHanding(g: Graph, st: State, o: BatchOracle)
    requires WellFormed(g) && st.idx <= |st.path| && Known(g, st.path[st.idx..])
    ensures var r := Processed(g, st, o);
            && st.trace <= r.trace
            && AppendedAreHanded(g, r.trace, r.path, st.idx + |Survivors(g, st)|)
            && AllStand(g, r.trace, |st.trace|, r.path)
  {
    var admitted := Admitted(g, st);
    hide AppendedAreHanded, AllStand, PostBatch;
    NothingYet(g, admitted);
    BatchKeepsHanding(g, admitted, st.idx, |admitted.path|, o.answer, |st.trace|, |admitted.path|);
  }

  lemma {:induction false} NothingYet(g: Graph, st: State)
    ensures AppendedAreHanded(g, st.trace, st.path, |st.path|) && AllStand(g, st.trace, |st.trace|, st.path)
  {
  }

  // ----- whole runs -----

  /** What a run starts with: Begin, or the path of a suspended run. */
  function Initial(path: seq<Id>): seq<Id> {
    if IsResume(path) then path else [BEGIN]
  }

  /** The first executed entries are the initial ones, and every later one was handed on by an earlier one. */
  ghost predicate IsTraced(g: Graph, initial: seq<Id>, trace: seq<Step>) {
    && |initial| <= |trace| && Admission.Ids(trace)[..|initial|] == initial
    && forall k :: |initial| <= k < |trace| ==> Handed(g, trace[..k], trace[k].id)
  }

  /** What is to run next, now or after a suspension, was handed on by an executed entry. */
  ghost predicate PendingIsHanded(g: Graph, st: State) {
    && (st.status == Running || st.status == Finished ==> AppendedAreHanded(g, st.trace, st.path, st.idx))
    && (st.status == Suspended ==> AppendedAreHanded(g, st.trace, st.path, 0))
  }

  ghost predicate Traced(g: Graph, initial: seq<Id>, st: State) {
    IsTraced(g, initial, st.trace) && PendingIsHanded(g, st)
  }

  lemma {:induction false} SurvivorsWerePending(g: Graph, st: State)
    requires st.idx <= |st.path| && Known(g, st.path[st.idx..]) && AppendedAreHanded(g, st.trace, st.path, st.idx)
    ensures forall x :: x in Survivors(g, st) ==> Handed(g, st.trace, x)
  {
    Termination.AdmitSelects(g, st.path[..st.idx], st.path[st.idx..]);
    hide Handed, Survivors, Known;
    forall x | x in Survivors(g, st) ensures Handed(g, st.trace, x) {
      assert x in st.path[st.idx..];
    }
  }

  /** A batch of entries that were handed on before it keeps the trace accounted for. */
  lemma {:induction false} TraceGrows(g: Graph, initial: seq<Id>, before: seq<Step>, trace: seq<Step>, batch: seq<Id>)
    requires IsTraced(g, initial, before) && before <= trace && Admission.Ids(trace) == Admission.Ids(before) + batch
    requires forall x :: x in batch ==> Handed(g, before, x)
    ensures IsTraced(g, initial, trace)
  {
    hide Handed;
    var n := |before|;
    assert |trace| == |Admission.Ids(trace)| == n + |batch|;
    forall k | |initial| <= k < |trace| ensures Handed(g, trace[..k], trace[k].id) {
      if k < n {
        assert trace[..k] == before[..k] && trace[k] == before[k];
      } else {
        assert trace[k].id == Admission.Ids(trace)[k] == batch[k - n];
        assert before <= trace[..k];
        HandedLater(g, before, trace[..k], trace[k].id);
      }
    }
    assert Admission.Ids(trace)[..|initial|] == Admission.Ids(before)[..|initial|];
  }

  /** What is pending after a step was handed on by an executed entry. */
  lemma {:induction false} StepPending(g: Graph, st: State, o: BatchOracle)
    requires WellFormed(g) && st.status == Running && Proper(st)
    ensures PendingIsHanded(g, BatchStep(g, st, o))
  {
    hide BatchStep, Processed, Survivors, AllStand, AppendedAreHanded, WellFormed, Known;
    var r := BatchStep(g, st, o);
    if r.status == Suspended {
      SuspendedPending(g, st, o);
    } else {
      StepShape(g, st, o);
      if r.status == Running || r.status == Finished {
        ProcessedHanding(g, st, o);
      }
    }
  }

  lemma {:induction false} SuspendedPending(g: Graph, st: State, o: BatchOracle)
    requires WellFormed(g) && st.status == Running && Proper(st) && BatchStep(g, st, o).status == Suspended
    ensures AppendedAreHanded(g, BatchStep(g, st, o).trace, BatchStep(g, st, o).path, 0)
  {
    hide BatchStep, Processed, Survivors, AllStand, AppendedAreHanded, WellFormed;
    StepShape(g, st, o);
    Suspension.StepSuspends(g, st, o);
    ProcessedHanding(g, st, o);
    ProcessedPrefix(g, st, o);
    SavedIsHanded(g, BatchStep(g, st, o), Processed(g, st, o).path, st.idx + |Survivors(g, st)|);
  }

  lemma {:induction false} SavedIsHanded(g: Graph, r: State, path: seq<Id>, end: nat)
    requires end <= |path| && AppendedAreHanded(g, r.trace, path, end)
    requires r.path == FillUps(g, path[end..]) + Others(g, path[end..])
    ensures AppendedAreHanded(g, r.trace, r.path, 0)
  {
    SplitSelects(g, path[end..]);
    hide FillUps, Others, Handed;
    forall q | 0 <= q < |r.path| ensures Handed(g, r.trace, r.path[q]) {
      assert r.path[q] in path[end..];
    }
  }

  lemma {:induction false} SplitSelects(g: Graph, ids: seq<Id>)
    ensures forall x :: x in FillUps(g, ids) || x in Others(g, ids) ==> x in ids
  {
    if ids != [] {
      SplitSelects(g, ids[1..]);
    }
  }

  lemma {:induction false} StepKeepsTraced(g: Graph, initial: seq<Id>, st: State, o: BatchOracle)
    requires WellFormed(g) && st.status == Running && Proper(st) && Traced(g, initial, st)
    ensures Traced(g, initial, BatchStep(g, st, o))
  {
    hide BatchStep, Processed, Survivors, AppendedAreHanded, AllStand, IsTraced;
    StepPending(g, st, o);
    StepShape(g, st, o);
    Admission.StepExecutes(g, st, o);
    if Known(g, st.path[st.idx..]) && !o.canceled {
      ProcessedHanding(g, st, o);
      SurvivorsWerePending(g, st);
      TraceGrows(g, initial, st.trace, BatchStep(g, st, o).trace, Survivors(g, st));
    }
  }

  /** The first batch of a run is what it starts with. */
  lemma {:induction false} FirstBatch(g: Graph, path: seq<Id>)
    requires WellFormed(g) && Known(g, Start(path).path[Start(path).idx..])
    ensures Survivors(g, Start(path)) == Initial(path)
  {
    var st := Start(path);
    if IsResume(path) {
      Suspension.WaivedBatch(g, st);
      assert path[0..] == path;
    } else {
      assert st.path[..st.idx] == path && st.path[st.idx..] == [BEGIN] && [BEGIN][1..] == [];
      assert Admit(g, path, [BEGIN]) == [BEGIN] + Admit(g, path + [BEGIN], []);
    }
  }

  lemma {:induction false} FirstStep(g: Graph, path: seq<Id>, o: BatchOracle)
    requires WellFormed(g)
    ensures var r := BatchStep(g, Start(path), o);
            Traced(g, Initial(path), r) || (r.trace == [] && r.status != Running && r.status != Finished)
  {
    var st := Start(path);
    var r := BatchStep(g, st, o);
    hide BatchStep, Processed, Survivors, PendingIsHanded, WellFormed;
    StepPending(g, st, o);
    StepShape(g, st, o);
    Admission.StepExecutes(g, st, o);
    if Known(g, st.path[st.idx..]) && !o.canceled {
      FirstBatch(g, path);
      assert Admission.Ids(r.trace) == [] + Initial(path);
    }
  }

  lemma {:induction false} RunKeepsTraced(g: Graph, initial: seq<Id>, st: State, oracle: seq<BatchOracle>)
    requires WellFormed(g) && Proper(st) && Traced(g, initial, st)
    ensures Traced(g, initial, Run(g, st, oracle))
    decreases |oracle|
  {
    if oracle != [] && st.status == Running {
      BatchStepIsProper(g, st, oracle[0]);
      StepKeepsTraced(g, initial, st, oracle[0]);
      hide BatchStep, Traced;
      RunKeepsTraced(g, initial, BatchStep(g, st, oracle[0]), oracle[1..]);
    }
  }

  /**
   In every reachable state that has executed anything: the first entries executed are Begin or the
   saved path; every later one was handed on by an earlier one; and so was what is still pending,
   the path saved at a form included.
   */
  lemma {:induction false} EveryEntryWasHandedOn(g: Graph, path: seq<Id>, oracle: seq<BatchOracle>)
    requires WellFormed(g)
    ensures var r := Run(g, Start(path), oracle); r.trace != [] ==> Traced(g, Initial(path), r)
  {
    var st := Start(path);
    if oracle != [] {
      FirstStep(g, path, oracle[0]);
      BatchStepIsProper(g, st, oracle[0]);
      hide BatchStep, Traced, Start, Initial;
      var next := BatchStep(g, st, oracle[0]);
      assert Run(g, st, oracle) == Run(g, next, oracle[1..]);
      if Traced(g, Initial(path), next) {
        RunKeepsTraced(g, Initial(path), next, oracle[1..]);
      }
    }
  }

  /** The entries of the last completed batch are the last ones of the trace. */
  ghost predicate LastBatchStands(g: Graph, st: State) {
    st.batches != [] ==>
      var n := |st.batches[|st.batches| - 1]|;
      n <= |st.trace| && AllStand(g, st.trace, |st.trace| - n, st.path)
  }

  lemma {:induction false} StepStands(g: Graph, st: State, o: BatchOracle)
    requires WellFormed(g) && st.status == Running && Proper(st)
    ensures var r := BatchStep(g, st, o); r.status == Running || r.status == Finished ==> LastBatchStands(g, r)
  {
    StepShape(g, st, o);
    Admission.StepExecutes(g, st, o);
    var r := BatchStep(g, st, o);
    hide BatchStep, Processed, Survivors, AppendedAreHanded, AllStand;
    if r.status == Running || r.status == Finished {
      ProcessedHanding(g, st, o);
      assert |r.trace| == |Admission.Ids(r.trace)| == |st.trace| + |Survivors(g, st)|;
    }
  }

  lemma {:induction false} RunStands(g: Graph, st: State, oracle: seq<BatchOracle>)
    requires WellFormed(g) && Proper(st)
    requires st.status == Running || st.status == Finished ==> LastBatchStands(g, st)
    ensures var r := Run(g, st, oracle); r.status == Running || r.status == Finished ==> LastBatchStands(g, r)
    decreases |oracle|
  {
    if oracle != [] && st.status == Running {
      BatchStepIsProper(g, st, oracle[0]);
      StepStands(g, st, oracle[0]);
      hide BatchStep, LastBatchStands;
      RunStands(g, BatchStep(g, st, oracle[0]), oracle[1..]);
    }
  }

  /**
   The converse: between any two batches, everything that an entry of the last batch hands on stands
   in the path, at or after the position that was the last one when the entry was post-processed.
   */
  lemma {:induction false} EverythingHandedOnStands(g: Graph, path: seq<Id>, oracle: seq<BatchOracle>)
    requires WellFormed(g)
    ensures var r := Run(g, Start(path), oracle);
            (r.status == Running || r.status == Finished) && r.batches != [] ==>
              var n := |r.batches[|r.batches| - 1]|;
              n <= |r.trace| && AllStand(g, r.trace, |r.trace| - n, r.path)
  {
    RunStands(g, Start(path), oracle);
  }

  // ----- order -----

  /** `ids` without those that repeat their predecessor, where `last` comes before the first. */
  function WithoutRepeats(last: Id, ids: seq<Id>): seq<Id>
    decreases |ids|
  {
    if ids == [] then [] else (if ids[0] == last then [] else [ids[0]]) + WithoutRepeats(ids[0], ids[1..])
  }

  /** The path grows by the list offered, in its order, without immediate repetitions. */
  lemma {:induction false} ExtendKeepsOrder(path: seq<Id>, ids: seq<Id>)
    requires path != []
    ensures Extend(path, ids) == path + WithoutRepeats(path[|path| - 1], ids)
    decreases |ids|
  {
    if ids != [] {
      var next := Append(path, ids[0]);
      ExtendKeepsOrder(next, ids[1..]);
      hide Extend;
      assert next[|next| - 1] == ids[0];
      assert next == path + if ids[0] == path[|path| - 1] then [] else [ids[0]];
    }
  }

  /** What each kind of entry appends, in order. */
  lemma {:induction false} StepAppends(g: Graph, st: State, i: nat, a: Answer)
    requires WellFormed(g) && i < |st.path| && st.path[i] in g
    ensures var s, c := Step(st.path[i], false, false, None, a, |st.path|), g[st.path[i]];
            var r, last := PostStep(g, st, i, a), st.path[|st.path| - 1];
            && (Jumps(g, s) ==> r.path == st.path + c.handler.value.goto)
            && (!Jumps(g, s) && c.kind == Branching ==> r.path == st.path + WithoutRepeats(last, a.next))
            && (!Jumps(g, s) && (EndsItem(g, s) || LeavesLoop(g, s)) ==>
                  r.path == st.path + WithoutRepeats(last, DownstreamOf(g, c.parent)))
            && (!Jumps(g, s) && IsOrdinaryTurn(g, s) && c.downstream != [] ==>
                  r.path == st.path + WithoutRepeats(last, c.downstream))
  {
    hide PostStep, Extend, WithoutRepeats, HandsOn;
    var s := Step(st.path[i], false, false, None, a, |st.path|);
    PostStepPath(g, st, i, a);
    OfferLists(g, s);
    hide Offer, WellFormed;
    ExtendKeepsOrder(st.path, Offer(g, g[s.id], a).0);
  }

  lemma {:induction false} OfferLists(g: Graph, s: Step)
    requires WellFormed(g) && s.id in g
    ensures var c, ids := g[s.id], Offer(g, g[s.id], s.answer).0;
            && (c.kind == Branching ==> ids == s.answer.next)
            && (EndsItem(g, s) || LeavesLoop(g, s) ==> ids == DownstreamOf(g, c.parent))
            && (IsOrdinaryTurn(g, s) && c.downstream != [] ==> ids == c.downstream)
  {
  }

  lemma {:induction false} PostStepPath(g: Graph, st: State, i: nat, a: Answer)
    requires WellFormed(g) && i < |st.path| && st.path[i] in g
    ensures var c := g[st.path[i]];
            var ids := if GoesTo(c, a) then st.path + c.handler.value.goto else Extend(st.path, Offer(g, c, a).0);
            PostStep(g, st, i, a).path == ids
  {
    hide Extend, StepEvents, ReleaseCount, Live;
  }
}
