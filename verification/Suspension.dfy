/** Suspending at a form and resuming: the pending part of the path is kept, reordered, and all of it runs. */
module Suspension {
  import opened Wrappers
  import opened CanvasGraph
  import opened Scheduler
  import Text

  // ----- a resumed run -----

  lemma {:induction false} WaivedAdmitsAll(g: Graph, below: seq<Id>, batch: seq<Id>)
    requires Known(g, batch) && batch != []
    requires IsFillUpId(if below == [] then batch[0] else below[0])
    ensures Admit(g, below, batch) == batch
    decreases |batch|
  {
    hide Missing, IsFillUpId;
    if |batch| > 1 {
      WaivedAdmitsAll(g, below + [batch[0]], batch[1..]);
    }
  }

  ghost predicate Waived(st: State) {
    st.path != [] && IsFillUpId(st.path[0])
  }

  lemma {:induction false} WaivedBatch(g: Graph, st: State)
    requires Waived(st) && st.idx < |st.path| && Known(g, st.path[st.idx..])
    ensures Survivors(g, st) == st.path[st.idx..]
  {
    WaivedAdmitsAll(g, st.path[..st.idx], st.path[st.idx..]);
  }

  lemma {:induction false} StepKeepsWaived(g: Graph, st: State, o: BatchOracle)
    requires WellFormed(g) && st.status == Running && Proper(st) && Waived(st)
    ensures BatchStep(g, st, o).status == Running ==> Waived(BatchStep(g, st, o))
  {
    StepShape(g, st, o);
    if Known(g, st.path[st.idx..]) && !o.canceled {
      WaivedBatch(g, st);
      ProcessedPrefix(g, st, o);
      hide BatchStep, Processed, Survivors, IsFillUpId;
      assert Processed(g, st, o).path[0] == (st.path[..st.idx] + st.path[st.idx..])[0] == st.path[0];
    }
  }

  /** The head of the path stays a form throughout a resumed run, so no entry is ever popped in it. */
  lemma {:induction false} ResumedRunPopsNothing(g: Graph, path: seq<Id>, oracle: seq<BatchOracle>)
    requires WellFormed(g) && IsResume(path)
    ensures var r := Run(g, Start(path), oracle);
            r.status == Running && Known(g, r.path[r.idx..]) ==> Survivors(g, r) == r.path[r.idx..]
  {
    RunKeepsWaived(g, Start(path), oracle);
    var r := Run(g, Start(path), oracle);
    if r.status == Running && Known(g, r.path[r.idx..]) {
      WaivedBatch(g, r);
    }
  }

  lemma {:induction false} RunKeepsWaived(g: Graph, st: State, oracle: seq<BatchOracle>)
    requires WellFormed(g) && Proper(st) && (st.status == Running ==> Waived(st))
    ensures Run(g, st, oracle).status == Running ==> Waived(Run(g, st, oracle))
    decreases |oracle|
  {
    if oracle != [] && st.status == Running {
      BatchStepIsProper(g, st, oracle[0]);
      StepKeepsWaived(g, st, oracle[0]);
      hide BatchStep, Waived;
      RunKeepsWaived(g, BatchStep(g, st, oracle[0]), oracle[1..]);
    }
  }

  // ----- suspending -----

  /** `s` is a merge of `a` and `b` that keeps the order within each. */
  ghost predicate Interleaves(s: seq<Id>, a: seq<Id>, b: seq<Id>) {
    if s == [] then a == [] && b == []
    else
      || (a != [] && a[0] == s[0] && Interleaves(s[1..], a[1..], b))
      || (b != [] && b[0] == s[0] && Interleaves(s[1..], a, b[1..]))
  }

  ghost predicate AllForms(g: Graph, ids: seq<Id>) {
    forall id :: id in ids ==> id in g && g[id].kind == UserFillUp
  }

  ghost predicate NoForms(g: Graph, ids: seq<Id>) {
    forall id :: id in ids ==> id in g && g[id].kind != UserFillUp
  }

  lemma {:induction false} PartitionLength(g: Graph, ids: seq<Id>)
    ensures |FillUps(g, ids)| + |Others(g, ids)| <= |ids|
    ensures Known(g, ids) <==> |FillUps(g, ids)| + |Others(g, ids)| == |ids|
  {
    if ids != [] {
      PartitionLength(g, ids[1..]);
      assert ids == [ids[0]] + ids[1..];
    }
  }

  lemma {:induction false} KnownInterleaves(g: Graph, ids: seq<Id>)
    requires Known(g, ids)
    ensures Interleaves(ids, FillUps(g, ids), Others(g, ids))
  {
    if ids != [] {
      KnownInterleaves(g, ids[1..]);
      var forms, others := FillUps(g, ids[1..]), Others(g, ids[1..]);
      assert ids[0] in ids && Known(g, ids[1..]);
      if g[ids[0]].kind == UserFillUp {
        assert FillUps(g, ids) == [ids[0]] + forms && FillUps(g, ids)[1..] == forms && Others(g, ids) == others;
      } else {
        assert Others(g, ids) == [ids[0]] + others && Others(g, ids)[1..] == others && FillUps(g, ids) == forms;
      }
    }
  }

  lemma {:induction false} PartitionKinds(g: Graph, ids: seq<Id>)
    ensures AllForms(g, FillUps(g, ids)) && NoForms(g, Others(g, ids))
  {
    if ids != [] {
      PartitionKinds(g, ids[1..]);
    }
  }

  /** The ids that the editor gives to forms make a path resumable, whatever their case. */
  lemma {:induction false} FormIdsResume(suffix: string, rest: seq<Id>)
    ensures IsResume(["UserFillUp:" + suffix] + rest) && IsResume(["userfillup:" + suffix] + rest)
    ensures !IsResume([]) && !IsResume([BEGIN] + rest)
  {
    NamesForm("UserFillUp", ":" + suffix);
    NamesForm("userfillup", ":" + suffix);
    BeginIsNoFillUp();
    hide IsFillUpId;
    assert "UserFillUp" + (":" + suffix) == "UserFillUp:" + suffix;
    assert "userfillup" + (":" + suffix) == "userfillup:" + suffix;
  }

  lemma {:induction false} NamesForm(name: string, suffix: string)
    requires Text.Lower(name) == "userfillup"
    ensures IsFillUpId(name + suffix)
  {
    var s := Text.Lower(name + suffix);
    assert s[0..10] == Text.Lower(name);
    assert Text.OccursAt(s, "userfillup", 0);
    Text.ContainsIffOccurs(s, "userfillup");
  }

  /** Splitting off the forms is a stable partition, and loses exactly the entries that are no components. */
  lemma {:induction false} StablePartition(g: Graph, ids: seq<Id>)
    ensures AllForms(g, FillUps(g, ids)) && NoForms(g, Others(g, ids))
    ensures Known(g, ids) <==> Interleaves(ids, FillUps(g, ids), Others(g, ids))
  {
    PartitionKinds(g, ids);
    PartitionLength(g, ids);
    if Known(g, ids) {
      KnownInterleaves(g, ids);
    }
    if Interleaves(ids, FillUps(g, ids), Others(g, ids)) {
      InterleavingLength(ids, FillUps(g, ids), Others(g, ids));
    }
  }

  lemma {:induction false} InterleavingLength(s: seq<Id>, a: seq<Id>, b: seq<Id>)
    requires Interleaves(s, a, b)
    ensures |s| == |a| + |b|
  {
    if s != [] {
      if a != [] && a[0] == s[0] && Interleaves(s[1..], a[1..], b) {
        InterleavingLength(s[1..], a[1..], b);
      } else {
        InterleavingLength(s[1..], a, b[1..]);
      }
    }
  }

  lemma {:induction false} InterleavingIsPermutation(s: seq<Id>, a: seq<Id>, b: seq<Id>)
    requires Interleaves(s, a, b)
    ensures multiset(a + b) == multiset(s)
  {
    if s != [] {
      assert s == [s[0]] + s[1..];
      if a != [] && a[0] == s[0] && Interleaves(s[1..], a[1..], b) {
        InterleavingIsPermutation(s[1..], a[1..], b);
        assert a + b == [s[0]] + (a[1..] + b);
      } else {
        InterleavingIsPermutation(s[1..], a, b[1..]);
        assert b == [s[0]] + b[1..];
        assert multiset(a + b) == multiset(a) + multiset([s[0]]) + multiset(b[1..]);
        assert multiset(a + b[1..]) == multiset(a) + multiset(b[1..]);
      }
    }
  }

  /** What the last batch of a run left pending above it. */
  ghost function Pending(g: Graph, st: State, o: BatchOracle): seq<Id>
    requires WellFormed(g) && st.idx < |st.path| && Known(g, st.path[st.idx..])
  {
    ProcessedPrefix(g, st, o);
    Processed(g, st, o).path[st.idx + |Survivors(g, st)|..]
  }

  lemma {:induction false} StepSuspends(g: Graph, st: State, o: BatchOracle)
    requires WellFormed(g) && st.status == Running && Proper(st) && BatchStep(g, st, o).status == Suspended
    ensures Known(g, st.path[st.idx..])
    ensures var pending := Pending(g, st, o);
            BatchStep(g, st, o).path == FillUps(g, pending) + Others(g, pending) && FillUps(g, pending) != []
  {
    ProcessedKeeps(g, st, o);
    hide Processed, Survivors, FillUps, Others;
  }

  /** A run that is over ended with one particular batch. */
  lemma {:induction false} LastBatch(g: Graph, st: State, oracle: seq<BatchOracle>) returns (k: nat)
    requires WellFormed(g) && Proper(st) && st.status == Running && Run(g, st, oracle).status != Running
    ensures k < |oracle| && Run(g, st, oracle[..k]).status == Running
    ensures Run(g, st, oracle) == BatchStep(g, Run(g, st, oracle[..k]), oracle[k])
    decreases |oracle|
  {
    BatchStepIsProper(g, st, oracle[0]);
    hide BatchStep;
    var next := BatchStep(g, st, oracle[0]);
    if next.status != Running {
      k := 0;
    } else {
      var j := LastBatch(g, next, oracle[1..]);
      k := j + 1;
      assert oracle[..k][0] == oracle[0] && oracle[..k][1..] == oracle[1..][..j];
    }
  }

  /**
   A run that suspends saves its pending entries, forms first and otherwise in order; nothing is
   lost as long as all of them are components. The next run takes the saved path for a resume: it
   adds no Begin, and its first batch is the whole saved path.
   */
  lemma {:induction false} SuspendResumeLosesNothing(g: Graph, path: seq<Id>, oracle: seq<BatchOracle>) returns (k: nat)
    requires WellFormed(g) && FillUpsAreNamed(g) && Run(g, Start(path), oracle).status == Suspended
    ensures k < |oracle| && Run(g, Start(path), oracle[..k]).status == Running
    ensures var last, r := Run(g, Start(path), oracle[..k]), Run(g, Start(path), oracle);
            && Known(g, last.path[last.idx..])
            && var pending := Pending(g, last, oracle[k]);
               && r.path == FillUps(g, pending) + Others(g, pending)
               && (Known(g, pending) <==> Interleaves(pending, FillUps(g, pending), Others(g, pending)))
               && (Known(g, pending) ==> multiset(r.path) == multiset(pending))
    ensures var r := Run(g, Start(path), oracle);
            && IsResume(r.path)
            && Start(r.path).path == r.path && Start(r.path).idx == 0
            && Known(g, r.path) && Survivors(g, Start(r.path)) == r.path
  {
    k := LastBatch(g, Start(path), oracle);
    var last, r := Run(g, Start(path), oracle[..k]), Run(g, Start(path), oracle);
    StepSuspends(g, last, oracle[k]);
    hide Run, BatchStep, Processed, IsFillUpId;
    ResumesWhole(g, r, Pending(g, last, oracle[k]));
  }

  lemma {:induction false} ResumesWhole(g: Graph, r: State, pending: seq<Id>)
    requires FillUpsAreNamed(g) && FillUps(g, pending) != [] && r.path == FillUps(g, pending) + Others(g, pending)
    ensures Known(g, pending) <==> Interleaves(pending, FillUps(g, pending), Others(g, pending))
    ensures Known(g, pending) ==> multiset(r.path) == multiset(pending)
    ensures IsResume(r.path) && Start(r.path).path == r.path && Start(r.path).idx == 0
    ensures Known(g, r.path) && Survivors(g, Start(r.path)) == r.path
  {
    hide IsFillUpId, Interleaves;
    StablePartition(g, pending);
    hide FillUps, Others;
    if Known(g, pending) {
      InterleavingIsPermutation(pending, FillUps(g, pending), Others(g, pending));
    }
    assert FillUps(g, pending)[0] in FillUps(g, pending);
    assert r.path[0] == FillUps(g, pending)[0];
    var st := Start(r.path);
    assert st.path[..0] == [] && st.path[0..] == r.path;
    WaivedBatch(g, st);
  }
}
