/** What admission guarantees: which entries survive, and what every executed entry has before it. */
module Admission {
  import opened Wrappers
  import opened CanvasGraph
  import opened Scheduler

  // ----- one batch -----

  /** Begin and forms always may; other components once everything they refer to stands before them. */
  predicate MayRun(g: Graph, id: Id, earlier: seq<Id>)
    requires id in g
  {
    g[id].kind == Begin || g[id].kind == UserFillUp || forall r :: r in g[id].refs && r != "" ==> r in earlier
  }

  /** The admission test for `id` once `earlier` is the path below it. */
  predicate Passes(g: Graph, first: Id, id: Id, earlier: seq<Id>)
    requires id in g
  {
    MayRun(g, id, earlier) || IsFillUpId(first)
  }

  ghost predicate Increasing(keep: seq<nat>) {
    forall i, j :: 0 <= i < j < |keep| ==> keep[i] < keep[j]
  }

  /** `j` lies between the `k`-th kept index and the one before it: `k` entries survive before `j`. */
  ghost predicate DroppedAfter(keep: seq<nat>, k: nat, j: nat) {
    k <= |keep| && (k > 0 ==> keep[k - 1] < j) && (k < |keep| ==> j < keep[k])
  }

  /** `keep` lists the indices of the entries of `batch` that make up `r`. */
  ghost predicate Selects(batch: seq<Id>, keep: seq<nat>, r: seq<Id>) {
    |keep| == |r| && Increasing(keep) && forall k :: 0 <= k < |keep| ==> keep[k] < |batch| && r[k] == batch[keep[k]]
  }

  ghost predicate KeptPass(g: Graph, below: seq<Id>, r: seq<Id>)
    requires below != []
  {
    forall k :: 0 <= k < |r| ==> r[k] in g && Passes(g, below[0], r[k], below + r[..k])
  }

  ghost predicate DroppedFail(g: Graph, below: seq<Id>, batch: seq<Id>, keep: seq<nat>, r: seq<Id>)
    requires Known(g, batch) && below != []
  {
    forall j, k | 0 <= j < |batch| && 0 <= k <= |r| && DroppedAfter(keep, k, j) ::
      !Passes(g, below[0], batch[j], below + r[..k])
  }

  /** Admission keeps the entries at `keep`, and these are exactly the ones that pass. */
  ghost predicate KeepsExactly(g: Graph, below: seq<Id>, batch: seq<Id>, keep: seq<nat>)
    requires Known(g, batch) && below != []
  {
    var r := Admit(g, below, batch);
    Selects(batch, keep, r) && KeptPass(g, below, r) && DroppedFail(g, below, batch, keep, r)
  }

  /**
   The survivors are a subsequence of the batch, given by the indices kept. An entry is kept
   exactly when it passes the test against the path below the batch and the survivors before it.
   */
  lemma {:induction false} AdmitChoice(g: Graph, below: seq<Id>, batch: seq<Id>) returns (keep: seq<nat>)
    requires Known(g, batch) && below != []
    ensures KeepsExactly(g, below, batch, keep)
    decreases |batch|
  {
    if batch == [] {
      keep := [];
    } else if Passes(g, below[0], batch[0], below) {
      var rest := AdmitChoice(g, below + [batch[0]], batch[1..]);
      keep := [0] + Shifted(rest);
      HeadKept(g, below, batch, rest);
    } else {
      var rest := AdmitChoice(g, below, batch[1..]);
      keep := Shifted(rest);
      HeadDropped(g, below, batch, rest);
    }
  }

  lemma {:induction false} HeadKept(g: Graph, below: seq<Id>, batch: seq<Id>, rest: seq<nat>)
    requires Known(g, batch) && below != [] && batch != [] && Passes(g, below[0], batch[0], below)
    requires KeepsExactly(g, below + [batch[0]], batch[1..], rest)
    ensures KeepsExactly(g, below, batch, [0] + Shifted(rest))
  {
    var id, tail := batch[0], Admit(g, below + [batch[0]], batch[1..]);
    assert Admit(g, below, batch) == [id] + tail;
    hide Admit, Passes;
    SelectHead(batch, rest, tail);
    hide Selects;
    PassWithHead(g, below, id, tail);
    FailWithHead(g, below, batch, rest, tail);
  }

  lemma {:induction false} SelectHead(batch: seq<Id>, rest: seq<nat>, tail: seq<Id>)
    requires batch != [] && Selects(batch[1..], rest, tail)
    ensures Selects(batch, [0] + Shifted(rest), [batch[0]] + tail)
  {
  }

  lemma {:induction false} PassWithHead(g: Graph, below: seq<Id>, id: Id, tail: seq<Id>)
    requires below != [] && id in g && Passes(g, below[0], id, below) && KeptPass(g, below + [id], tail)
    ensures KeptPass(g, below, [id] + tail)
  {
    hide Passes;
    var r := [id] + tail;
    forall k | 0 <= k < |r| ensures r[k] in g && Passes(g, below[0], r[k], below + r[..k]) {
      Regroup(below, id, tail, k);
    }
  }

  lemma {:induction false} FailWithHead(g: Graph, below: seq<Id>, batch: seq<Id>, rest: seq<nat>, tail: seq<Id>)
    requires Known(g, batch) && below != [] && batch != [] && |rest| == |tail|
    requires DroppedFail(g, below + [batch[0]], batch[1..], rest, tail)
    ensures DroppedFail(g, below, batch, [0] + Shifted(rest), [batch[0]] + tail)
  {
    hide Passes;
    var keep, r := [0] + Shifted(rest), [batch[0]] + tail;
    forall j, k | 0 <= j < |batch| && 0 <= k <= |r| && DroppedAfter(keep, k, j)
      ensures !Passes(g, below[0], batch[j], below + r[..k])
    {
      Regroup(below, batch[0], tail, k);
      assert keep[0] == 0 && k > 0 && batch[j] == batch[1..][j - 1];
      assert DroppedAfter(rest, k - 1, j - 1);
    }
  }

  lemma {:induction false} Regroup(below: seq<Id>, id: Id, tail: seq<Id>, k: nat)
    requires k <= |[id] + tail|
    ensures below + ([id] + tail)[..k] == if k == 0 then below else below + [id] + tail[..k - 1]
  {
  }

  lemma {:induction false} HeadDropped(g: Graph, below: seq<Id>, batch: seq<Id>, rest: seq<nat>)
    requires Known(g, batch) && below != [] && batch != [] && !Passes(g, below[0], batch[0], below)
    requires KeepsExactly(g, below, batch[1..], rest)
    ensures KeepsExactly(g, below, batch, Shifted(rest))
  {
    var keep, r := Shifted(rest), Admit(g, below, batch);
    assert r == Admit(g, below, batch[1..]);
    hide Admit, Passes, Known, KeptPass;
    assert Selects(batch, keep, r) by {
      hide DroppedFail;
    }
    hide Selects;
    forall j, k | 0 <= j < |batch| && 0 <= k <= |r| && DroppedAfter(keep, k, j)
      ensures !Passes(g, below[0], batch[j], below + r[..k])
    {
      if j == 0 {
        assert k == 0 && below + r[..0] == below;
      } else {
        assert batch[j] == batch[1..][j - 1] && DroppedAfter(rest, k, j - 1);
      }
    }
  }

  ghost function Shifted(keep: seq<nat>): seq<nat> {
    seq(|keep|, i requires 0 <= i < |keep| => keep[i] + 1)
  }

  /** An entry whose references are all below the batch is never popped. */
  lemma {:induction false} AdmitKeepsReady(g: Graph, below: seq<Id>, batch: seq<Id>, id: Id)
    requires Known(g, batch) && id in batch && !Missing(g, id, below)
    ensures id in Admit(g, below, batch)
    decreases |batch|
  {
    var head := batch[0];
    if id != head {
      AdmitKeepsReady(g, below + [head], batch[1..], id);
      AdmitKeepsReady(g, below, batch[1..], id);
    }
  }

  // ----- whole runs -----

  ghost function Flatten(batches: seq<seq<Id>>): seq<Id> {
    if batches == [] then [] else Flatten(batches[..|batches| - 1]) + batches[|batches| - 1]
  }

  lemma {:induction false} FlattenSnoc(batches: seq<seq<Id>>, batch: seq<Id>)
    ensures Flatten(batches + [batch]) == Flatten(batches) + batch
  {
    assert (batches + [batch])[..|batches|] == batches;
  }

  /** The processed part of the path is the saved path followed by the completed batches. */
  ghost predicate Partitioned(base: seq<Id>, st: State) {
    st.idx <= |st.path| && st.path[..st.idx] == base + Flatten(st.batches)
  }

  /** The entry at `p` was allowed to run where it stands. */
  ghost predicate Backed(g: Graph, path: seq<Id>, p: nat)
    requires p < |path|
  {
    path[p] in g && MayRun(g, path[p], path[..p])
  }

  /** The entries the run has executed, in order, on top of the saved path. */
  ghost function Executed(base: seq<Id>, st: State): seq<Id> {
    base + Ids(st.trace)
  }

  ghost function Ids(trace: seq<Step>): seq<Id> {
    seq(|trace|, i requires 0 <= i < |trace| => trace[i].id)
  }

  /**
   The completed batches were executed, only a failing batch on top of them, and every entry was
   allowed to run where it stood.
   */
  ghost predicate ExecutedSafely(g: Graph, base: seq<Id>, st: State) {
    var executed, completed := Executed(base, st), base + Flatten(st.batches);
    && completed <= executed && (st.status != Failed ==> executed == completed)
    && forall p :: |base| <= p < |executed| ==> Backed(g, executed, p)
  }

  lemma {:induction false} BackedByPrefix(g: Graph, path: seq<Id>, path': seq<Id>, p: nat, n: nat)
    requires p < n <= |path| && n <= |path'| && path[..n] == path'[..n] && Backed(g, path, p)
    ensures Backed(g, path', p)
  {
    assert path[p] == path[..n][p] && path'[p] == path'[..n][p];
    assert path[..p] == path[..n][..p] && path'[..p] == path'[..n][..p];
  }

  /** In a fresh run the head of the path is not a form, so the test is never waived. */
  ghost predicate Strict(st: State) {
    st.path != [] && !IsFillUpId(st.path[0]) && (st.idx == 0 ==> st.path == [BEGIN])
  }

  lemma {:induction false} AdmittedPass(g: Graph, st: State)
    requires WellFormed(g) && Strict(st) && st.idx <= |st.path| && Known(g, st.path[st.idx..])
    ensures var below, r := st.path[..st.idx], Survivors(g, st);
            forall k :: 0 <= k < |r| ==> r[k] in g && MayRun(g, r[k], below + r[..k])
    ensures st.idx == 0 ==> Survivors(g, st) == [BEGIN]
  {
    AdmitIsKnown(g, st.path[..st.idx], st.path[st.idx..]);
    if st.idx == 0 {
      assert st.path[0..] == [BEGIN] && [BEGIN][1..] == [];
    } else {
      var keep := AdmitChoice(g, st.path[..st.idx], st.path[st.idx..]);
    }
  }

  lemma {:induction false} OneBatchMore(base: seq<Id>, st: State, r: State, batch: seq<Id>)
    requires Partitioned(base, st) && r.idx <= |r.path|
    requires r.path[..r.idx] == st.path[..st.idx] + batch && r.batches == st.batches + [batch]
    ensures Partitioned(base, r)
  {
    FlattenSnoc(st.batches, batch);
    hide Flatten;
    assert base + Flatten(st.batches) + batch == base + (Flatten(st.batches) + batch);
  }

  lemma {:induction false} StepKeepsPartition(g: Graph, base: seq<Id>, st: State, o: BatchOracle)
    requires WellFormed(g) && st.status == Running && Proper(st) && Partitioned(base, st)
    ensures var r := BatchStep(g, st, o); r.status != Suspended ==> Partitioned(base, r)
  {
    StepShape(g, st, o);
    hide BatchStep, Processed, Survivors, Flatten;
    var r := BatchStep(g, st, o);
    if r.status == Running || r.status == Finished {
      ProcessedPrefix(g, st, o);
      OneBatchMore(base, st, r, Survivors(g, st));
    }
  }

  lemma {:induction false} SurvivorsBacked(g: Graph, st: State, path: seq<Id>, k: nat)
    requires WellFormed(g) && Strict(st) && st.idx <= |st.path| && Known(g, st.path[st.idx..])
    requires k < |Survivors(g, st)| && st.path[..st.idx] + Survivors(g, st) <= path
    ensures Backed(g, path, st.idx + k)
  {
    AdmittedPass(g, st);
    hide Survivors, WellFormed, MayRun;
    assert path[st.idx + k] == Survivors(g, st)[k];
    assert path[..st.idx + k] == st.path[..st.idx] + Survivors(g, st)[..k];
  }

  lemma {:induction false} PostBatchTrace(g: Graph, st: State, from: nat, end: nat, answer: nat -> Answer)
    requires WellFormed(g) && from <= end <= |st.path| && Known(g, st.path[from..end])
    ensures Ids(PostBatch(g, st, from, end, answer).trace) == Ids(st.trace) + st.path[from..end]
    decreases end - from
  {
    if from < end {
      hide PostStep, WellFormed, Known, Ids, PostBatch;
      PostBatchUnfolds(g, st, from, end, answer);
      var next := PostStep(g, st, from, answer(from));
      PostStepTrace(g, st, from, answer(from));
      PostBatchTrace(g, next, from + 1, end, answer);
      OneThenRest(Ids(st.trace), st.path, next.path, from, end);
    } else {
      hide PostStep;
    }
  }

  lemma {:induction false} PostStepTrace(g: Graph, st: State, i: nat, a: Answer)
    requires WellFormed(g) && i < |st.path| && st.path[i] in g
    ensures Ids(PostStep(g, st, i, a).trace) == Ids(st.trace) + [st.path[i]]
  {
    var step := PostStep(g, st, i, a).trace[|st.trace|];
    assert PostStep(g, st, i, a).trace == st.trace + [step] && step.id == st.path[i];
    hide PostStep;
  }

  lemma {:induction false} OneThenRest(before: seq<Id>, path: seq<Id>, longer: seq<Id>, from: nat, end: nat)
    requires from < end <= |path| && path <= longer
    ensures before + [path[from]] + longer[from + 1..end] == before + path[from..end]
  {
    assert path[from..end] == [path[from]] + longer[from + 1..end];
  }

  /** What a step executes and what it completes. */
  lemma {:induction false} StepExecutes(g: Graph, st: State, o: BatchOracle)
    requires WellFormed(g) && st.status == Running && Proper(st)
    ensures var r := BatchStep(g, st, o);
            if Known(g, st.path[st.idx..]) && !o.canceled then
              && Ids(r.trace) == Ids(st.trace) + Survivors(g, st)
              && r.batches == st.batches + (if r.status == Failed then [] else [Survivors(g, st)])
            else r.trace == st.trace && r.batches == st.batches && r.status != Failed
  {
    StepShape(g, st, o);
    if Known(g, st.path[st.idx..]) && !o.canceled {
      var admitted := Admitted(g, st);
      PostBatchTrace(g, admitted, st.idx, |admitted.path|, o.answer);
      ProcessedKeeps(g, st, o);
      hide Survivors, PostBatch, Admitted, FillUps, Others, Ids;
    }
  }

  lemma {:induction false} StepKeepsSafety(g: Graph, base: seq<Id>, st: State, o: BatchOracle)
    requires WellFormed(g) && st.status == Running && Proper(st) && Strict(st) && Partitioned(base, st)
    requires ExecutedSafely(g, base, st)
    ensures ExecutedSafely(g, base, BatchStep(g, st, o))
  {
    StepExecutes(g, st, o);
    var r := BatchStep(g, st, o);
    hide BatchStep, Survivors, Backed, WellFormed, Ids, Flatten, Strict;
    if Known(g, st.path[st.idx..]) && !o.canceled {
      var batch := Survivors(g, st);
      BatchOnTop(base, st, r, batch);
      var executed := Executed(base, r);
      forall p | |base| <= p < |executed| ensures Backed(g, executed, p) {
        if p < st.idx {
          BackedByPrefix(g, st.path[..st.idx], executed, p, st.idx);
        } else {
          SurvivorsBacked(g, st, executed, p - st.idx);
        }
      }
    }
  }

  lemma {:induction false} BatchOnTop(base: seq<Id>, st: State, r: State, batch: seq<Id>)
    requires Partitioned(base, st) && Executed(base, st) == st.path[..st.idx]
    requires Ids(r.trace) == Ids(st.trace) + batch
    requires r.batches == st.batches + (if r.status == Failed then [] else [batch])
    ensures Executed(base, r) == st.path[..st.idx] + batch
    ensures base + Flatten(r.batches) <= Executed(base, r)
    ensures (r.status != Failed ==> Executed(base, r) == base + Flatten(r.batches))
  {
    hide Flatten, Ids;
    assert base + (Ids(st.trace) + batch) == base + Ids(st.trace) + batch;
    FlattenSnoc(st.batches, batch);
    assert base + (Flatten(st.batches) + batch) == base + Flatten(st.batches) + batch;
    assert st.batches + [] == st.batches;
  }

  lemma {:induction false} StepKeepsStrict(g: Graph, st: State, o: BatchOracle)
    requires WellFormed(g) && st.status == Running && Proper(st) && Strict(st)
    ensures var r := BatchStep(g, st, o); r.status == Running ==> Strict(r)
  {
    StepShape(g, st, o);
    if Known(g, st.path[st.idx..]) && !o.canceled {
      AdmittedPass(g, st);
      ProcessedPrefix(g, st, o);
      hide BatchStep, Processed, Survivors, Missing, IsFillUpId, WellFormed, Known;
      assert Processed(g, st, o).path[0] == (st.path[..st.idx] + Survivors(g, st))[0] == st.path[0];
    }
  }

  lemma {:induction false} RunKeepsPartition(g: Graph, base: seq<Id>, st: State, oracle: seq<BatchOracle>)
    requires WellFormed(g) && Proper(st) && Partitioned(base, st)
    ensures var r := Run(g, st, oracle); r.status != Suspended ==> Partitioned(base, r)
    decreases |oracle|
  {
    if oracle != [] && st.status == Running {
      BatchStepIsProper(g, st, oracle[0]);
      StepKeepsPartition(g, base, st, oracle[0]);
      hide BatchStep;
      var next := BatchStep(g, st, oracle[0]);
      if next.status == Running {
        RunKeepsPartition(g, base, next, oracle[1..]);
      }
    }
  }

  lemma {:induction false} RunKeepsSafety(g: Graph, base: seq<Id>, st: State, oracle: seq<BatchOracle>)
    requires WellFormed(g) && Proper(st) && ExecutedSafely(g, base, st)
    requires (st.status == Running ==> Strict(st) && Partitioned(base, st))
    ensures ExecutedSafely(g, base, Run(g, st, oracle))
    decreases |oracle|
  {
    if oracle != [] && st.status == Running {
      BatchStepIsProper(g, st, oracle[0]);
      StepKeepsSafety(g, base, st, oracle[0]);
      StepKeepsStrict(g, st, oracle[0]);
      StepKeepsPartition(g, base, st, oracle[0]);
      hide BatchStep, ExecutedSafely, Strict, Partitioned;
      RunKeepsSafety(g, base, BatchStep(g, st, oracle[0]), oracle[1..]);
    }
  }

  // ----- main results -----

  /**
   In every state a fresh run reaches, however it ends: the batches completed so far, and a failing
   batch on top of them, are what was executed above the saved path; every executed entry but Begin
   and UserFillUp has all the components it refers to at earlier positions; and unless the run
   suspends, which saves another path, this is the processed part of the path, the saved path
   untouched below it.
   */
  lemma {:induction false} AdmissionSafety(g: Graph, path: seq<Id>, oracle: seq<BatchOracle>)
    requires WellFormed(g) && !IsResume(path)
    ensures var r := Run(g, Start(path), oracle);
            && ExecutedSafely(g, path, r)
            && (r.status != Suspended ==> Partitioned(path, r))
  {
    BeginIsNoFillUp();
    var st := Start(path);
    assert st.path[..st.idx] == path + Flatten([]);
    assert Executed(path, st) == path;
    RunKeepsPartition(g, path, st, oracle);
    RunKeepsSafety(g, path, st, oracle);
  }

  /**
   A run that ends in an unhandled component error saves the path as it was below the failing
   batch: the saved path of the run followed by its completed batches, whatever was popped,
   appended or jumped to inside that batch.
   */
  lemma {:induction false} FailureIsBatchAtomic(g: Graph, path: seq<Id>, oracle: seq<BatchOracle>)
    requires WellFormed(g)
    ensures var r := Run(g, Start(path), oracle);
            r.status == Failed ==> r.path == (if IsResume(path) then [] else path) + Flatten(r.batches)
  {
    var base := if IsResume(path) then [] else path;
    var st := Start(path);
    assert st.path[..st.idx] == base + Flatten([]);
    FailedPathIsCut(g, st, oracle);
    RunKeepsPartition(g, base, st, oracle);
  }

  lemma {:induction false} FailedPathIsCut(g: Graph, st: State, oracle: seq<BatchOracle>)
    requires WellFormed(g) && Proper(st) && (st.status == Failed ==> |st.path| == st.idx)
    ensures var r := Run(g, st, oracle); r.status == Failed ==> |r.path| == r.idx
    decreases |oracle|
  {
    if oracle != [] && st.status == Running {
      BatchStepIsProper(g, st, oracle[0]);
      StepShape(g, st, oracle[0]);
      hide BatchStep;
      FailedPathIsCut(g, BatchStep(g, st, oracle[0]), oracle[1..]);
    }
  }
}
