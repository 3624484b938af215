/**
 No lost wake-up: popping an entry whose references are not ready is harmless, because the last
 of its references to run offers it again.
 */
module WakeUp {
  import opened Wrappers
  import opened CanvasGraph
  import opened Scheduler
  import Admission

  /** The trace names the entries the run has processed above `base`, up to position `n`. */
  ghost predicate Aligned(base: seq<Id>, st: State, n: nat) {
    && |base| + |st.trace| == n <= |st.path|
    && forall k :: 0 <= k < |st.trace| ==> st.trace[k].id == st.path[|base| + k]
  }

  /** Every other downstream component that the path up to `p` makes ready stands in the path after `p`. */
  ghost predicate Wakes(g: Graph, path: seq<Id>, p: nat)
    requires p < |path|
  {
    path[p] in g &&
    forall x :: x in g[path[p]].downstream && x != path[p] && x in g && !Missing(g, x, path[..p + 1])
      ==> StandsAfter(path, p, x)
  }

  ghost predicate StandsAfter(path: seq<Id>, p: nat, x: Id) {
    exists q :: p < q < |path| && path[q] == x
  }

  /** The trace is aligned up to `n`, and every plain entry in it woke what it made ready. */
  ghost predicate Awake(g: Graph, base: seq<Id>, st: State, n: nat) {
    Aligned(base, st, n) &&
    forall k :: 0 <= k < |st.trace| && st.trace[k].plain ==> Wakes(g, st.path, |base| + k)
  }

  // ----- post-processing -----

  lemma {:induction false} ExtendReaches(path: seq<Id>, ids: seq<Id>, x: Id)
    requires path != [] && x in ids
    ensures exists q :: |path| - 1 <= q < |Extend(path, ids)| && Extend(path, ids)[q] == x
    decreases |ids|
  {
    var next := Append(path, ids[0]);
    ExtendExtends(next, ids[1..]);
    if x == ids[0] {
      assert next[|next| - 1] == x && Extend(path, ids)[|next| - 1] == x;
    } else {
      ExtendReaches(next, ids[1..], x);
      var q :| |next| - 1 <= q < |Extend(next, ids[1..])| && Extend(next, ids[1..])[q] == x;
      assert Extend(path, ids)[q] == x;
    }
  }

  lemma {:induction false} WakesMonotone(g: Graph, path: seq<Id>, path': seq<Id>, p: nat)
    requires path <= path' && p < |path| && Wakes(g, path, p)
    ensures Wakes(g, path', p)
  {
    assert path'[..p + 1] == path[..p + 1];
    forall x | x in g[path'[p]].downstream && x != path'[p] && x in g && !Missing(g, x, path'[..p + 1])
      ensures StandsAfter(path', p, x)
    {
      var q :| p < q < |path| && path[q] == x;
      assert path'[q] == x;
    }
  }

  lemma {:induction false} PlainStepWakes(g: Graph, st: State, i: nat, a: Answer)
    requires WellFormed(g) && i < |st.path| && st.path[i] in g
    ensures var r := PostStep(g, st, i, a);
            |r.trace| == |st.trace| + 1 && r.trace[..|st.trace|] == st.trace && r.trace[|st.trace|].id == st.path[i]
    ensures var r := PostStep(g, st, i, a);
            st.path <= r.path && (r.trace[|st.trace|].plain ==> Wakes(g, r.path, i))
  {
    PostStepExtends(g, st, i, a);
    var r, ids := PostStep(g, st, i, a), g[st.path[i]].downstream;
    if r.trace[|st.trace|].plain {
      assert r.path == Extend(st.path, ids);
      hide PostStep, Extend, Missing;
      forall x | x in ids && x != st.path[i] ensures StandsAfter(r.path, i, x) {
        ExtendReaches(st.path, ids, x);
        var q :| |st.path| - 1 <= q < |r.path| && r.path[q] == x;
        assert r.path[i] == st.path[i] && q != i;
      }
    }
  }

  lemma {:induction false} StepWakes(g: Graph, base: seq<Id>, st: State, i: nat, a: Answer)
    requires WellFormed(g) && i < |st.path| && st.path[i] in g
    requires Awake(g, base, st, i)
    ensures var r := PostStep(g, st, i, a); Awake(g, base, r, i + 1)
  {
    PlainStepWakes(g, st, i, a);
    hide PostStep, Wakes;
    var r := PostStep(g, st, i, a);
    forall k | 0 <= k < |r.trace|
      ensures r.trace[k].id == r.path[|base| + k] && (r.trace[k].plain ==> Wakes(g, r.path, |base| + k))
    {
      if k < |st.trace| {
        assert r.trace[k] == st.trace[k];
        if r.trace[k].plain {
          WakesMonotone(g, st.path, r.path, |base| + k);
        }
      }
    }
  }

  lemma {:induction false} PostBatchWakes(
      g: Graph, base: seq<Id>, st: State, from: nat, end: nat, answer: nat -> Answer)
    requires WellFormed(g) && from <= end <= |st.path| && Known(g, st.path[from..end])
    requires Awake(g, base, st, from)
    ensures var r := PostBatch(g, st, from, end, answer); Awake(g, base, r, end)
    decreases end - from
  {
    if from < end {
      PostBatchUnfolds(g, st, from, end, answer);
      StepWakes(g, base, st, from, answer(from));
      hide PostStep, Awake;
      PostBatchWakes(g, base, PostStep(g, st, from, answer(from)), from + 1, end, answer);
    }
  }

  // ----- admission -----

  lemma {:induction false} MissingShrinks(g: Graph, x: Id, earlier: seq<Id>, later: seq<Id>)
    requires x in g && earlier <= later && !Missing(g, x, earlier)
    ensures !Missing(g, x, later)
  {
  }

  /** Admission keeps the woken entries, since what made them ready lies below the batch. */
  lemma {:induction false} AdmittedWakes(g: Graph, st: State, p: nat)
    requires st.idx <= |st.path| && Known(g, st.path[st.idx..]) && p < st.idx && Wakes(g, st.path, p)
    ensures Wakes(g, Admitted(g, st).path, p)
  {
    var path := Admitted(g, st).path;
    assert path[..st.idx] == st.path[..st.idx];
    assert path[p] == path[..st.idx][p] == st.path[p];
    assert path[..p + 1] == path[..st.idx][..p + 1] == st.path[..p + 1];
    forall x | x in g[path[p]].downstream && x != path[p] && x in g && !Missing(g, x, path[..p + 1])
      ensures StandsAfter(path, p, x)
    {
      var q :| p < q < |st.path| && st.path[q] == x;
      if q < st.idx {
        assert path[q] == path[..st.idx][q] == x;
      } else {
        MissingShrinks(g, x, path[..p + 1], st.path[..st.idx]);
        assert st.path[st.idx..][q - st.idx] == x;
        Admission.AdmitKeepsReady(g, st.path[..st.idx], st.path[st.idx..], x);
        var k :| 0 <= k < |Survivors(g, st)| && Survivors(g, st)[k] == x;
        assert path[st.idx + k] == path[st.idx..][k] == x;
      }
    }
  }

  lemma {:induction false} AdmissionWakes(g: Graph, base: seq<Id>, st: State)
    requires st.idx <= |st.path| && Known(g, st.path[st.idx..]) && Awake(g, base, st, st.idx)
    ensures Awake(g, base, Admitted(g, st), st.idx)
  {
    var admitted := Admitted(g, st);
    assert admitted.trace == st.trace && |admitted.path| >= st.idx;
    forall k | 0 <= k < |st.trace|
      ensures admitted.trace[k].id == admitted.path[|base| + k]
      ensures admitted.trace[k].plain ==> Wakes(g, admitted.path, |base| + k)
    {
      hide Admitted, Wakes, Survivors;
      assert admitted.path[..st.idx][|base| + k] == st.path[..st.idx][|base| + k];
      if st.trace[k].plain {
        AdmittedWakes(g, st, |base| + k);
      }
    }
  }

  lemma {:induction false} ProcessedWakes(g: Graph, base: seq<Id>, st: State, o: BatchOracle)
    requires WellFormed(g) && st.idx <= |st.path| && Known(g, st.path[st.idx..]) && Awake(g, base, st, st.idx)
    ensures Awake(g, base, Processed(g, st, o), st.idx + |Survivors(g, st)|)
  {
    AdmissionWakes(g, base, st);
    hide Awake, Admitted;
    PostBatchWakes(g, base, Admitted(g, st), st.idx, |Admitted(g, st).path|, o.answer);
  }

  // ----- runs -----

  lemma {:induction false} StepKeepsAwake(g: Graph, base: seq<Id>, st: State, o: BatchOracle)
    requires WellFormed(g) && st.status == Running && Proper(st) && Awake(g, base, st, st.idx)
    ensures var r := BatchStep(g, st, o); r.status == Running || r.status == Finished ==> Awake(g, base, r, r.idx)
  {
    StepShape(g, st, o);
    hide BatchStep, Processed, Survivors, Wakes, Known;
    var r := BatchStep(g, st, o);
    if r.status == Running || r.status == Finished {
      ProcessedWakes(g, base, st, o);
    }
  }

  lemma {:induction false} RunKeepsAwake(g: Graph, base: seq<Id>, st: State, oracle: seq<BatchOracle>)
    requires WellFormed(g) && Proper(st) && Awake(g, base, st, st.idx)
    ensures var r := Run(g, st, oracle); r.status == Running || r.status == Finished ==> Awake(g, base, r, r.idx)
    decreases |oracle|
  {
    if oracle != [] && st.status == Running {
      BatchStepIsProper(g, st, oracle[0]);
      StepKeepsAwake(g, base, st, oracle[0]);
      FinishedIsDrained(g, st, oracle);
      hide BatchStep, Awake;
      var next := BatchStep(g, st, oracle[0]);
      if next.status == Running || next.status == Finished {
        RunKeepsAwake(g, base, next, oracle[1..]);
      }
    }
  }

  lemma {:induction false} FinishedIsDrained(g: Graph, st: State, oracle: seq<BatchOracle>)
    requires WellFormed(g) && Proper(st) && (st.status == Finished ==> st.idx == |st.path|)
    ensures var r := Run(g, st, oracle); r.status == Finished ==> r.idx == |r.path|
    decreases |oracle|
  {
    if oracle != [] && st.status == Running {
      BatchStepIsProper(g, st, oracle[0]);
      StepShape(g, st, oracle[0]);
      hide BatchStep;
      FinishedIsDrained(g, BatchStep(g, st, oracle[0]), oracle[1..]);
    }
  }

  // ----- main result -----

  ghost predicate Refers(g: Graph, x: Id, c: Id)
    requires x in g
  {
    c in g[x].refs && c != ""
  }

  ghost function Base(path: seq<Id>): seq<Id> {
    if IsResume(path) then [] else path
  }

  /** Component `c` was executed by the run that started above `base`. */
  ghost predicate Executes(base: seq<Id>, r: State, c: Id) {
    exists p :: |base| <= p < |r.path| && r.path[p] == c
  }

  lemma {:induction false} LastReference(g: Graph, x: Id, path: seq<Id>, low: nat, high: nat) returns (p: nat)
    requires x in g && low < high <= |path| && exists q :: low <= q < high && Refers(g, x, path[q])
    ensures low <= p < high && Refers(g, x, path[p])
    ensures forall q :: p < q < high ==> !Refers(g, x, path[q])
    decreases high - low
  {
    if Refers(g, x, path[high - 1]) {
      p := high - 1;
    } else {
      p := LastReference(g, x, path, low, high - 1);
    }
  }

  /**
   In a run that ends without error or suspension, a component whose references are all executed,
   each as a plain node directly upstream of it, is executed after every execution of every one of
   them, however often it was popped before.
   */
  lemma {:induction false} NoLostWakeUp(g: Graph, path: seq<Id>, oracle: seq<BatchOracle>, x: Id)
    requires WellFormed(g) && x in g
    requires Run(g, Start(path), oracle).status == Finished
    requires exists c :: Refers(g, x, c)
    requires forall c :: Refers(g, x, c) ==> c != x && Executes(Base(path), Run(g, Start(path), oracle), c)
    requires forall step :: step in Run(g, Start(path), oracle).trace && Refers(g, x, step.id)
                            ==> step.plain && step.id in g && x in g[step.id].downstream
    ensures var base, r := Base(path), Run(g, Start(path), oracle);
            exists q :: |base| <= q < |r.path| && r.path[q] == x
              && forall p :: |base| <= p < |r.path| && Refers(g, x, r.path[p]) ==> p < q
  {
    assert Proper(Start(path));
    hide *;
    FinishedIsAwake(g, path, oracle);
    WokenAfterLast(g, Base(path), Run(g, Start(path), oracle), x);
  }

  lemma {:induction false} FinishedIsAwake(g: Graph, path: seq<Id>, oracle: seq<BatchOracle>)
    requires WellFormed(g) && Run(g, Start(path), oracle).status == Finished
    ensures var r := Run(g, Start(path), oracle); Awake(g, Base(path), r, r.idx) && r.idx == |r.path|
  {
    RunKeepsAwake(g, Base(path), Start(path), oracle);
    FinishedIsDrained(g, Start(path), oracle);
  }

  lemma {:induction false} WokenAfterLast(g: Graph, base: seq<Id>, r: State, x: Id)
    requires x in g && Awake(g, base, r, r.idx) && r.idx == |r.path|
    requires exists c :: Refers(g, x, c)
    requires forall c :: Refers(g, x, c) ==> c != x && Executes(base, r, c)
    requires forall step :: step in r.trace && Refers(g, x, step.id)
                            ==> step.plain && step.id in g && x in g[step.id].downstream
    ensures exists q :: |base| <= q < |r.path| && r.path[q] == x
              && forall p :: |base| <= p < |r.path| && Refers(g, x, r.path[p]) ==> p < q
  {
    hide Missing;
    var c :| Refers(g, x, c);
    assert Executes(base, r, c);
    var p := LastReference(g, x, r.path, |base|, |r.path|);
    ReadyAfterLast(g, x, base, r, p);
    assert r.trace[p - |base|] in r.trace && r.trace[p - |base|].id == r.path[p];
    assert Wakes(g, r.path, p);
    var q :| p < q < |r.path| && r.path[q] == x;
    assert forall p' :: |base| <= p' < |r.path| && Refers(g, x, r.path[p']) ==> p' < q;
  }

  lemma {:induction false} ReadyAfterLast(g: Graph, x: Id, base: seq<Id>, r: State, p: nat)
    requires x in g && |base| <= p < |r.path|
    requires forall c :: Refers(g, x, c) ==> Executes(base, r, c)
    requires forall q :: p < q < |r.path| ==> !Refers(g, x, r.path[q])
    ensures !Missing(g, x, r.path[..p + 1])
  {
    forall c | c in g[x].refs && c != "" ensures c in r.path[..p + 1] {
      assert Refers(g, x, c);
      var q :| |base| <= q < |r.path| && r.path[q] == c;
      assert r.path[..p + 1][q] == c;
    }
  }
}
