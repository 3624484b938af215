/**
 Small canvases on which the hypotheses of the theorems about runs hold: one where a component is
 popped and woken again, and one that suspends at a form.
 */
module SampleRun {
  import opened Wrappers
  import opened CanvasGraph
  import opened Scheduler
  import WakeUp
  import Termination
  import Text

  const QUIET := Answer("", {}, [], false)

  /** Nothing fails, streams or is cancelled. */
  function Quiet(needsInput: bool): BatchOracle {
    BatchOracle(false, i => QUIET, needsInput)
  }

  predicate IsPlain(c: Component) {
    (c.kind == Begin || c.kind == Ordinary) && c.parent.None?
  }

  lemma {:induction false} OnePost(g: Graph, st: State, i: nat)
    requires WellFormed(g) && i + 1 == |st.path| && st.path[i] in g && IsPlain(g[st.path[i]])
    ensures var r := PostBatch(g, st, i, i + 1, j => QUIET);
            && r.path == Extend(st.path, g[st.path[i]].downstream) && r.error == st.error
            && r.trace == st.trace + [Step(st.path[i], true, false, None, QUIET, i + 1)]
            && r.idx == st.idx && r.status == st.status
  {
    PostBatchUnfolds(g, st, i, i + 1, j => QUIET);
  }

  /** A batch of which one plain component survives. */
  lemma {:induction false} OneSurvivor(g: Graph, st: State, id: Id, needsInput: bool)
    requires WellFormed(g) && st.idx < |st.path| && Known(g, st.path[st.idx..]) && st.error == ""
    requires st.status == Running
    requires Survivors(g, st) == [id] && id in g && IsPlain(g[id])
    ensures var path := Extend(st.path[..st.idx] + [id], g[id].downstream);
            var r := BatchStep(g, st, Quiet(needsInput));
            && st.idx + 1 <= |path|
            && var forms := FillUps(g, path[st.idx + 1..]);
            && r.trace == st.trace + [Step(id, true, false, None, QUIET, st.idx + 1)]
            && (forms != [] && needsInput ==> r.status == Suspended)
            && (forms == [] || !needsInput ==>
                  && r.path == path && r.idx == st.idx + 1 && r.error == ""
                  && r.status == if r.idx == |path| then Finished else Running)
  {
    hide PostBatch, Extend, FillUps, Others, Admit, WellFormed, Known, Survivors;
    var admitted := Admitted(g, st);
    assert admitted.path == st.path[..st.idx] + [id] && admitted.path[st.idx] == id;
    OnePost(g, admitted, st.idx);
    ExtendExtends(admitted.path, g[id].downstream);
    ProcessedKeeps(g, st, Quiet(needsInput));
  }

  // ----- popped and woken -----

  /** `begin` offers `x` before the component `a` that `x` refers to. */
  const DIAMOND: Graph :=
    map["begin" := Component(Begin, [], ["x", "a"], None, "", None),
        "a" := Component(Ordinary, [], ["x"], None, "", None),
        "x" := Component(Ordinary, ["a"], [], None, "", None)]

  lemma {:induction false} ExtendTwo(path: seq<Id>, a: Id, b: Id)
    requires path != [] && path[|path| - 1] != a && a != b
    ensures Extend(path, [a, b]) == path + [a, b]
  {
    assert [a, b][1..] == [b] && [b][1..] == [];
    assert Extend(path + [a], [b]) == path + [a] + [b];
  }

  lemma {:induction false} ExtendOne(path: seq<Id>, a: Id)
    requires path != [] && path[|path| - 1] != a
    ensures Extend(path, [a]) == path + [a]
  {
    assert [a][1..] == [];
  }

  lemma {:induction false} FirstBatch(g: Graph)
    requires WellFormed(g)
    ensures Start([]).path == ["begin"] && Start([]).idx == 0
    ensures Known(g, ["begin"]) && Survivors(g, Start([])) == ["begin"]
  {
    assert [] + [BEGIN] == ["begin"];
    assert Start([]).path[0..] == ["begin"] && Start([]).path[..0] == [];
    assert ["begin"][1..] == [];
  }

  /** In the second batch `x` is popped, and `a` survives. */
  lemma {:induction false} SecondBatch(st: State)
    requires st.path == ["begin", "x", "a"] && st.idx == 1
    ensures Known(DIAMOND, st.path[1..]) && Survivors(DIAMOND, st) == ["a"]
  {
    var below, batch := st.path[..1], st.path[1..];
    assert below == ["begin"] && batch == ["x", "a"];
    BeginIsNoFillUp();
    assert "a" in DIAMOND["x"].refs && "a" !in below;
    assert Missing(DIAMOND, "x", below);
    assert !Missing(DIAMOND, "a", below);
    assert batch[1..] == ["a"] && ["a"][1..] == [];
    hide IsFillUpId, Missing;
    assert Admit(DIAMOND, below + ["a"], []) == [];
    assert Admit(DIAMOND, below, ["a"]) == ["a"];
  }

  lemma {:induction false} ThirdBatch(st: State)
    requires st.path == ["begin", "a", "x"] && st.idx == 2
    ensures Known(DIAMOND, st.path[2..]) && Survivors(DIAMOND, st) == ["x"]
  {
    var below, batch := st.path[..2], st.path[2..];
    assert below == ["begin", "a"] && batch == ["x"];
    assert "a" in below;
    assert forall r :: r in DIAMOND["x"].refs ==> r == "a";
    assert !Missing(DIAMOND, "x", below);
    assert ["x"][1..] == [];
    hide IsFillUpId, Missing;
    assert Admit(DIAMOND, below + ["x"], []) == [];
  }

  const ENTERED := [Step("begin", true, false, None, QUIET, 1)]
  const POPPED := ENTERED + [Step("a", true, false, None, QUIET, 2)]
  const WOKEN := POPPED + [Step("x", true, false, None, QUIET, 3)]

  /** Between two batches of an error-free run. */
  predicate IsAt(st: State, status: Status, path: seq<Id>, idx: nat, trace: seq<Step>) {
    st.status == status && st.error == "" && st.path == path && st.idx == idx && st.trace == trace
  }

  lemma {:induction false} DiamondIsWellFormed()
    ensures WellFormed(DIAMOND)
  {
  }

  lemma {:induction false} StepOne()
    ensures WellFormed(DIAMOND)
    ensures IsAt(BatchStep(DIAMOND, Start([]), Quiet(false)), Running, ["begin", "x", "a"], 1, ENTERED)
  {
    DiamondIsWellFormed();
    FirstBatch(DIAMOND);
    hide IsFillUpId, Survivors, Known, FillUps, BatchStep, Quiet, Extend, WellFormed;
    OneSurvivor(DIAMOND, Start([]), "begin", false);
    assert Start([]).path[..0] + ["begin"] == ["begin"];
    ExtendTwo(["begin"], "x", "a");
    assert [] + ENTERED == ENTERED;
  }

  lemma {:induction false} StepTwo(st: State)
    requires IsAt(st, Running, ["begin", "x", "a"], 1, ENTERED)
    ensures WellFormed(DIAMOND)
    ensures IsAt(BatchStep(DIAMOND, st, Quiet(false)), Running, ["begin", "a", "x"], 2, POPPED)
  {
    DiamondIsWellFormed();
    SecondBatch(st);
    hide IsFillUpId, Survivors, Known, FillUps, BatchStep, Quiet, Extend, WellFormed;
    OneSurvivor(DIAMOND, st, "a", false);
    assert st.path[..1] + ["a"] == ["begin", "a"];
    ExtendOne(["begin", "a"], "x");
  }

  lemma {:induction false} StepThree(st: State)
    requires IsAt(st, Running, ["begin", "a", "x"], 2, POPPED)
    ensures WellFormed(DIAMOND)
    ensures IsAt(BatchStep(DIAMOND, st, Quiet(false)), Finished, ["begin", "a", "x"], 3, WOKEN)
  {
    DiamondIsWellFormed();
    ThirdBatch(st);
    hide IsFillUpId, Survivors, Known, FillUps, BatchStep, Quiet, WellFormed;
    OneSurvivor(DIAMOND, st, "x", false);
    assert st.path[..2] + ["x"] == ["begin", "a", "x"];
  }

  lemma {:induction false} RunOn(g: Graph, st: State, o: BatchOracle, rest: seq<BatchOracle>)
    requires WellFormed(g) && st.status == Running && Proper(st)
    ensures Proper(BatchStep(g, st, o)) && Run(g, st, [o] + rest) == Run(g, BatchStep(g, st, o), rest)
  {
    BatchStepIsProper(g, st, o);
    hide BatchStep;
    assert ([o] + rest)[1..] == rest;
  }

  /** The popped component runs after all: the run ends with it, after the one it refers to. */
  lemma {:induction false} PoppedThenWoken()
    ensures WellFormed(DIAMOND)
    ensures var r := Run(DIAMOND, Start([]), [Quiet(false), Quiet(false), Quiet(false)]);
            IsAt(r, Finished, ["begin", "a", "x"], 3, WOKEN)
  {
    var q, s0 := Quiet(false), Start([]);
    StepOne();
    hide WellFormed, BatchStep, Quiet;
    var s1 := BatchStep(DIAMOND, s0, q);
    StepTwo(s1);
    var s2 := BatchStep(DIAMOND, s1, q);
    StepThree(s2);
    var s3 := BatchStep(DIAMOND, s2, q);
    RunOn(DIAMOND, s0, q, [q, q]);
    RunOn(DIAMOND, s1, q, [q]);
    RunOn(DIAMOND, s2, q, []);
    assert [q] + [q, q] == [q, q, q] && [q] + [q] == [q, q] && [q] + [] == [q];
    assert Run(DIAMOND, s3, []) == s3;
  }

  /** So the hypotheses of the wake-up theorem can be met by a run that pops. */
  lemma {:induction false} WakeUpApplies()
    ensures WellFormed(DIAMOND)
    ensures var r := Run(DIAMOND, Start([]), [Quiet(false), Quiet(false), Quiet(false)]);
            && r.status == Finished
            && (forall c :: WakeUp.Refers(DIAMOND, "x", c) <==> c == "a")
            && WakeUp.Executes(WakeUp.Base([]), r, "a")
            && (forall step :: step in r.trace && WakeUp.Refers(DIAMOND, "x", step.id) ==>
                  step.plain && "x" in DIAMOND[step.id].downstream)
  {
    PoppedThenWoken();
    hide Run, Quiet, WellFormed;
    var r := Run(DIAMOND, Start([]), [Quiet(false), Quiet(false), Quiet(false)]);
    assert r.path[1] == "a" && |WakeUp.Base([])| == 0;
    assert DIAMOND["a"].downstream[0] == "x";
  }

  /** The bound on the number of batches is attained: three nodes in a row, and three batches. */
  lemma {:induction false} BoundIsAttained()
    ensures WellFormed(DIAMOND) && Termination.MovesDownstream(DIAMOND) && Termination.Bounded(DIAMOND, 3)
    ensures Run(DIAMOND, Start([]), [Quiet(false), Quiet(false)]).status == Running
    ensures Termination.RunChoosesDownstream(DIAMOND, Start([]), [Quiet(false), Quiet(false), Quiet(false)])
  {
    WalksAreShort();
    DiamondIsWellFormed();
    NothingBranches(Start([]), [Quiet(false), Quiet(false), Quiet(false)]);
    var q, s0 := Quiet(false), Start([]);
    StepOne();
    hide *;
    TwoSteps(s0, q);
  }

  lemma {:induction false} NothingBranches(st: State, oracle: seq<BatchOracle>)
    requires WellFormed(DIAMOND) && Proper(st)
    ensures Termination.RunChoosesDownstream(DIAMOND, st, oracle)
    decreases |oracle|
  {
    if oracle != [] && st.status == Running {
      assert Termination.BatchChoosesDownstream(DIAMOND, st, oracle[0]) by {
        hide Admitted, WellFormed;
      }
      BatchStepIsProper(DIAMOND, st, oracle[0]);
      hide BatchStep, WellFormed;
      NothingBranches(BatchStep(DIAMOND, st, oracle[0]), oracle[1..]);
    }
  }

  lemma {:induction false} TwoSteps(s0: State, q: BatchOracle)
    requires s0 == Start([]) && q == Quiet(false)
    ensures WellFormed(DIAMOND) && Run(DIAMOND, s0, [q, q]).status == Running
  {
    StepOne();
    hide WellFormed, BatchStep, Quiet;
    var s1 := BatchStep(DIAMOND, s0, q);
    StepTwo(s1);
    RunOn(DIAMOND, s0, q, [q]);
    RunOn(DIAMOND, s1, q, []);
    assert [q] + [q] == [q, q] && [q] + [] == [q];
  }

  lemma {:induction false} Follows(a: Id, b: Id)
    ensures a in DIAMOND && b in DIAMOND[a].downstream ==>
              (a == "begin" && (b == "x" || b == "a")) || (a == "a" && b == "x")
  {
  }

  lemma {:induction false} WalksAreShort()
    ensures Termination.MovesDownstream(DIAMOND) && Termination.Bounded(DIAMOND, 3)
  {
    forall w | Termination.Walk(DIAMOND, w) ensures |w| <= 3 {
      if |w| > 3 {
        Follows(w[0], w[1]);
        Follows(w[1], w[2]);
        Follows(w[2], w[3]);
      }
    }
  }

  // ----- suspended -----

  const FORM: Graph :=
    map["begin" := Component(Begin, [], ["UserFillUp:f"], None, "", None),
        "UserFillUp:f" := Component(UserFillUp, [], [], None, "", None)]

  lemma {:induction false} FormIsWellFormed()
    ensures WellFormed(FORM) && FillUpsAreNamed(FORM)
  {
    Text.ContainsIffOccurs(Text.Lower("UserFillUp:f"), "userfillup");
    assert Text.OccursAt(Text.Lower("UserFillUp:f"), "userfillup", 0);
  }

  lemma {:induction false} FormIsPending(form: Id, path: seq<Id>)
    requires path == ["begin"] + [form] && form in FORM && FORM[form].kind == UserFillUp
    ensures FillUps(FORM, path[1..]) != []
  {
    assert path[1..][0] == form;
  }

  lemma {:induction false} StopsAt(form: Id)
    requires form == "UserFillUp:f" && WellFormed(FORM)
    ensures BatchStep(FORM, Start([]), Quiet(true)).status == Suspended
  {
    assert FORM["begin"].downstream == [form];
    assert form != "begin" && form in FORM && FORM[form].kind == UserFillUp;
    FirstBatch(FORM);
    hide IsFillUpId, Survivors, Known, FillUps, BatchStep, Quiet, Extend, WellFormed;
    OneSurvivor(FORM, Start([]), "begin", true);
    assert Start([]).path[..0] + ["begin"] == ["begin"];
    ExtendOne(["begin"], form);
    FormIsPending(form, ["begin"] + [form]);
  }

  /** A run that stops at a form which needs input. */
  lemma {:induction false} StopsAtForm()
    ensures WellFormed(FORM) && FillUpsAreNamed(FORM)
    ensures Run(FORM, Start([]), [Quiet(true)]).status == Suspended
  {
    var q, s0 := Quiet(true), Start([]);
    FormIsWellFormed();
    StopsAt("UserFillUp:f");
    hide BatchStep, Quiet, WellFormed;
    RunOn(FORM, s0, q, []);
    assert [q] + [] == [q];
  }
}
