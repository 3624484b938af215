/** Every run on an acyclic graph ends, within as many batches as its longest downstream path has nodes. */
module Termination {
  import opened Wrappers
  import opened CanvasGraph
  import opened Scheduler

  // ----- walks -----

  /** A walk along downstream edges. */
  ghost predicate Walk(g: Graph, w: seq<Id>) {
    w != [] && forall i :: 0 <= i < |w| - 1 ==> w[i] in g && w[i + 1] in g[w[i]].downstream
  }

  /** No walk has more than `limit` nodes; a finite limit makes the graph acyclic. */
  ghost predicate Bounded(g: Graph, limit: nat) {
    forall w :: Walk(g, w) ==> |w| <= limit
  }

  /** Some walk of `n` nodes ends in `id`. */
  ghost predicate EndsWalk(g: Graph, id: Id, n: nat) {
    exists w :: Walk(g, w) && |w| == n && w[n - 1] == id
  }

  lemma {:induction false} WalkOn(g: Graph, id: Id, next: Id, n: nat)
    requires EndsWalk(g, id, n) && id in g && next in g[id].downstream
    ensures EndsWalk(g, next, n + 1)
  {
    var w :| Walk(g, w) && |w| == n && w[n - 1] == id;
    var longer := w + [next];
    assert Walk(g, longer) && |longer| == n + 1 && longer[n] == next;
  }

  // ----- runs that only move downstream -----

  /** No containers, and error targets are downstream ids. */
  ghost predicate MovesDownstream(g: Graph) {
    forall id :: id in g ==>
      && !IsContainer(g[id].kind) && !IsItem(g[id].kind) && g[id].kind != ExitLoop && g[id].parent.None?
      && (g[id].handler.Some? ==> forall x :: x in g[id].handler.value.goto ==> x in g[id].downstream)
  }

  /** Switch and Categorize choose among their downstream ids. */
  ghost predicate ChoosesDownstream(g: Graph, path: seq<Id>, i: nat, answer: nat -> Answer)
    requires i < |path|
  {
    path[i] in g && g[path[i]].kind == Branching ==> forall x :: x in answer(i).next ==> x in g[path[i]].downstream
  }

  ghost predicate BatchChoosesDownstream(g: Graph, st: State, o: BatchOracle) {
    st.idx < |st.path| && Known(g, st.path[st.idx..]) ==>
      var path := Admitted(g, st).path;
      forall i :: st.idx <= i < |path| ==> ChoosesDownstream(g, path, i, o.answer)
  }

  ghost predicate RunChoosesDownstream(g: Graph, st: State, oracle: seq<BatchOracle>)
    requires WellFormed(g) && Proper(st)
    decreases |oracle|
  {
    oracle == [] || st.status != Running ||
    (BatchStepIsProper(g, st, oracle[0]);
     BatchChoosesDownstream(g, st, oracle[0]) && RunChoosesDownstream(g, BatchStep(g, st, oracle[0]), oracle[1..]))
  }

  // ----- one batch -----

  lemma {:induction false} AppendsDownstream(g: Graph, st: State, i: nat, a: Answer, j: nat)
    requires WellFormed(g) && MovesDownstream(g) && i < |st.path| && st.path[i] in g
    requires g[st.path[i]].kind == Branching ==> forall y :: y in a.next ==> y in g[st.path[i]].downstream
    requires |st.path| <= j < |PostStep(g, st, i, a).path|
    ensures PostStep(g, st, i, a).path[j] in g[st.path[i]].downstream
  {
    var c := g[st.path[i]];
    var r, ids := PostStep(g, st, i, a), Offer(g, c, a).0;
    ExtendExtends(st.path, ids);
    assert r.path[j] == r.path[|st.path|..][j - |st.path|];
    if GoesTo(c, a) {
      assert r.path[|st.path|..] == c.handler.value.goto;
    } else {
      assert r.path == Extend(st.path, ids);
    }
  }

  /** The entries in `[from, end)` end walks of `n` nodes and what lies above ends walks of `n + 1`. */
  ghost predicate Frontier(g: Graph, path: seq<Id>, from: nat, end: nat, n: nat) {
    && from <= end <= |path|
    && (forall j :: from <= j < end ==> EndsWalk(g, path[j], n))
    && (forall j :: end <= j < |path| ==> EndsWalk(g, path[j], n + 1))
  }

  lemma {:induction false} PostStepFrontier(g: Graph, st: State, from: nat, end: nat, a: Answer, n: nat)
    requires WellFormed(g) && MovesDownstream(g) && from < end && Frontier(g, st.path, from, end, n)
    requires st.path[from] in g
    requires g[st.path[from]].kind == Branching ==> forall y :: y in a.next ==> y in g[st.path[from]].downstream
    ensures Frontier(g, PostStep(g, st, from, a).path, from + 1, end, n)
  {
    PostStepExtends(g, st, from, a);
    var path := PostStep(g, st, from, a).path;
    hide PostStep, EndsWalk;
    forall j | end <= j < |path| ensures EndsWalk(g, path[j], n + 1) {
      if j >= |st.path| {
        AppendsDownstream(g, st, from, a, j);
        WalkOn(g, st.path[from], path[j], n);
      }
    }
  }

  lemma {:induction false} PostBatchFrontier(g: Graph, st: State, from: nat, end: nat, answer: nat -> Answer, n: nat)
    requires WellFormed(g) && MovesDownstream(g) && Frontier(g, st.path, from, end, n) && Known(g, st.path[from..end])
    requires forall i :: from <= i < end ==> ChoosesDownstream(g, st.path, i, answer)
    ensures Frontier(g, PostBatch(g, st, from, end, answer).path, end, end, n)
    decreases end - from
  {
    if from < end {
      PostBatchUnfolds(g, st, from, end, answer);
      var next := PostStep(g, st, from, answer(from));
      assert ChoosesDownstream(g, st.path, from, answer);
      PostStepFrontier(g, st, from, end, answer(from), n);
      hide PostStep, EndsWalk;
      forall i | from + 1 <= i < end ensures ChoosesDownstream(g, next.path, i, answer) {
        assert next.path[i] == st.path[i] && ChoosesDownstream(g, st.path, i, answer);
      }
      hide Frontier;
      PostBatchFrontier(g, next, from + 1, end, answer, n);
    }
  }

  lemma {:induction false} AdmitSelects(g: Graph, below: seq<Id>, batch: seq<Id>)
    requires Known(g, batch)
    ensures forall id :: id in Admit(g, below, batch) ==> id in batch
    decreases |batch|
  {
    if batch != [] {
      AdmitSelects(g, below + [batch[0]], batch[1..]);
      AdmitSelects(g, below, batch[1..]);
    }
  }

  /** Everything still to run ends a walk of `n` nodes. */
  ghost predicate Reached(g: Graph, st: State, n: nat) {
    st.idx <= |st.path| && forall j :: st.idx <= j < |st.path| ==> EndsWalk(g, st.path[j], n)
  }

  lemma {:induction false} AdmittedFrontier(g: Graph, st: State, n: nat)
    requires Reached(g, st, n) && Known(g, st.path[st.idx..])
    ensures Frontier(g, Admitted(g, st).path, st.idx, |Admitted(g, st).path|, n)
  {
    var path := Admitted(g, st).path;
    AdmitSelects(g, st.path[..st.idx], st.path[st.idx..]);
    hide EndsWalk, Admitted;
    forall j | st.idx <= j < |path| ensures EndsWalk(g, path[j], n) {
      assert path[j] == path[st.idx..][j - st.idx];
      assert path[j] in st.path[st.idx..];
    }
  }

  lemma {:induction false} StepReaches(g: Graph, st: State, o: BatchOracle, n: nat)
    requires WellFormed(g) && MovesDownstream(g) && st.status == Running && Proper(st)
    requires BatchChoosesDownstream(g, st, o) && Reached(g, st, n)
    ensures BatchStep(g, st, o).status == Running ==> Reached(g, BatchStep(g, st, o), n + 1)
  {
    StepShape(g, st, o);
    if BatchStep(g, st, o).status == Running {
      AdmittedFrontier(g, st, n);
      assert Known(g, Admitted(g, st).path[st.idx..|Admitted(g, st).path|]);
      PostBatchFrontier(g, Admitted(g, st), st.idx, |Admitted(g, st).path|, o.answer, n);
      hide EndsWalk, BatchStep, Admitted;
    }
  }

  // ----- main result -----

  lemma {:induction false} RunEndsFrom(g: Graph, st: State, oracle: seq<BatchOracle>, n: nat, limit: nat)
    requires WellFormed(g) && MovesDownstream(g) && Proper(st) && Bounded(g, limit)
    requires RunChoosesDownstream(g, st, oracle)
    requires st.status == Running ==> Reached(g, st, n) && |oracle| + n > limit
    ensures Run(g, st, oracle).status != Running
    decreases |oracle|
  {
    if st.status == Running {
      assert EndsWalk(g, st.path[st.idx], n);
      var w :| Walk(g, w) && |w| == n && w[n - 1] == st.path[st.idx];
      BatchStepIsProper(g, st, oracle[0]);
      StepReaches(g, st, oracle[0], n);
      hide BatchStep, BatchChoosesDownstream, Reached;
      RunEndsFrom(g, BatchStep(g, st, oracle[0]), oracle[1..], n + 1, limit);
    }
  }

  /**
   When containers are absent and every jump goes downstream, each batch lies one edge further
   along than the one before, whatever admission pops: a run has ended after as many batches as
   the longest downstream walk has nodes.
   */
  lemma {:induction false} RunEnds(g: Graph, path: seq<Id>, oracle: seq<BatchOracle>, limit: nat)
    requires WellFormed(g) && MovesDownstream(g) && Bounded(g, limit)
    requires RunChoosesDownstream(g, Start(path), oracle) && |oracle| >= limit
    ensures Run(g, Start(path), oracle).status != Running
  {
    var st := Start(path);
    forall id ensures EndsWalk(g, id, 1) {
      assert Walk(g, [id]) && |[id]| == 1 && [id][0] == id;
    }
    RunEndsFrom(g, st, oracle, 1, limit);
  }
}
