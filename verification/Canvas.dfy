/**
 The canvas as the program runs it (agent/canvas.py): one mutable path, popped and appended to in
 place by loops. Each method is proved against the scheduler's state machine.
 */
module CanvasProgram {
  import opened Wrappers
  import opened CanvasGraph
  import opened Scheduler
  import Text

  class Canvas {
    const g: Graph
    var path: seq<Id>
    var error: string
    var events: seq<Event>

    constructor (g: Graph, path: seq<Id>)
      ensures this.g == g && this.path == path && error == "" && events == []
    {
      this.g := g;
      this.path := path;
      error := "";
      events := [];
    }

    /** The mutable part of a scheduler state, as held by the program. */
    ghost predicate Holds(st: State, partials: seq<Id>)
      reads this
    {
      path == st.path && error == st.error && events == st.events && partials == st.partials
    }

    /** The for-else over the input elements: whether some reference keeps `path[i]` from running. */
    method IsHeldBack(i: nat) returns (held: bool)
      requires i < |path| && path[i] in g
      ensures held == (Missing(g, path[i], path[..i]) && !IsFillUpId(path[0]))
    {
      var refs := g[path[i]].refs;
      for k := 0 to |refs|
        invariant IsFillUpId(path[0]) || forall r :: r in refs[..k] ==> r == "" || r in path[..i]
      {
        if refs[k] != "" && refs[k] !in path[..i] && !IsFillUpId(path[0]) {
          return true;
        }
      }
      return false;
    }

    /** The admission loop of `_run_batch`: pops the entries at and above `f` that are held back. */
    method AdmitBatch(f: nat)
      requires f <= |path| && Known(g, path[f..])
      modifies this`path
      ensures path == old(path)[..f] + Admit(g, old(path)[..f], old(path)[f..])
    {
      var i, t := f, |path|;
      assert path[..f] + Admit(g, path[..f], path[f..]) == old(path)[..f] + Admit(g, old(path)[..f], old(path)[f..]);
      while i < t
        invariant f <= i <= t == |path|
        invariant Known(g, path[i..])
        invariant path[..i] + Admit(g, path[..i], path[i..])
               == old(path)[..f] + Admit(g, old(path)[..f], old(path)[f..])
      {
        var id := path[i];
        assert id == path[i..][0];
        AdmitUnfolds(g, path, i);
        var held := false;
        if !IsExempt(g[id].kind) {
          held := IsHeldBack(i);
        }
        if held {
          ghost var before := path;
          path := path[..i] + path[i + 1..];
          t := t - 1;
          assert path[..i] == before[..i] && path[i..] == before[i + 1..];
        } else {
          i := i + 1;
        }
      }
      assert path[i..] == [] && path[..i] == path;
    }

    /** `_extend_path` by way of `_append_path`. */
    method ExtendPath(ids: seq<Id>)
      requires path != []
      modifies this`path
      ensures path == Extend(old(path), ids)
    {
      assert ids[0..] == ids;
      for k := 0 to |ids|
        invariant path != []
        invariant Extend(path, ids[k..]) == Extend(old(path), ids)
      {
        assert ids[k..][0] == ids[k] && ids[k..][1..] == ids[k + 1..];
        if path[|path| - 1] != ids[k] {
          path := path + [ids[k]];
        }
      }
      assert ids[|ids|..] == [];
    }

    /** The loop that releases finished streams from the head of the queue. */
    method Release(partials: seq<Id>, streaming: set<Id>) returns (rest: seq<Id>)
      modifies this`events
      ensures var n := Drained(partials, streaming);
              rest == partials[n..] && events == old(events) + Deferred(partials[..n])
    {
      ghost var total := Drained(partials, streaming);
      ghost var n := 0;
      rest := partials;
      while rest != [] && rest[0] !in streaming
        invariant 0 <= n <= |partials| && rest == partials[n..]
        invariant total == n + Drained(rest, streaming)
        invariant events == old(events) + Deferred(partials[..n])
        decreases |rest|
      {
        assert Deferred(partials[..n + 1]) == Deferred(partials[..n]) + [Done(rest[0], true)];
        events := events + [Done(rest[0], true)];
        rest := rest[1..];
        n := n + 1;
      }
    }

    /** Post-processing of one path entry. */
    method PostProcess(i: nat, a: Answer, partials: seq<Id>, ghost st: State) returns (rest: seq<Id>)
      requires WellFormed(g) && i < |path| && path[i] in g && Holds(st, partials)
      modifies this
      ensures Holds(PostStep(g, st, i, a), rest)
    {
      var id := path[i];
      var c := g[id];
      rest := Speak(c, id, a, partials);
      var otherBranch := HandleError(c, id, a);
      ghost var queued := !IsContainer(c.kind) && id in Live(c, id, a) && error == "";
      rest := Report(c, id, a, rest);
      ghost var closes := if IsItem(c.kind) && a.ended then c.parent else None;
      EventsInOrder(c, id, a, partials[..ReleaseCount(c, id, a, partials)], queued, closes, st.events);
      hide StepEvents, Extend, Drained, Live, Offer;
      if !otherBranch {
        HandOn(c, a);
      }
    }

    /** The if-chain that appends what comes after the component. */
    method HandOn(c: Component, a: Answer)
      requires WellFormed(g) && path != []
      requires c.parent.Some? ==> c.parent.value in g
      requires IsItem(c.kind) || c.kind == ExitLoop ==> c.parent.Some?
      modifies this`path
      ensures path == Extend(old(path), Offer(g, c, a).0)
    {
      hide Extend;
      if IsItem(c.kind) && a.ended {
        ExtendPath(g[c.parent.value].downstream);
      } else if c.kind == Branching {
        ExtendPath(a.next);
      } else if IsContainer(c.kind) {
        ExtendPath([c.start]);
      } else if c.kind == ExitLoop && g[c.parent.value].kind == Loop {
        ExtendPath(g[c.parent.value].downstream);
      } else if c.downstream == [] && c.parent.Some? {
        ExtendPath([g[c.parent.value].start]);
      } else {
        ExtendPath(c.downstream);
      }
    }

    /** A Message speaks and releases the finished streams queued before it. */
    method Speak(c: Component, id: Id, a: Answer, partials: seq<Id>) returns (rest: seq<Id>)
      modifies this`events
      ensures var n := ReleaseCount(c, id, a, partials);
              && rest == partials[n..]
              && events == old(events) + if c.kind == Message then [Spoke(id)] + Deferred(partials[..n]) else []
    {
      rest := partials;
      if c.kind == Message {
        events := events + [Spoke(id)];
        rest := Release(partials, a.streaming - {id});
      }
    }

    /** The error branches: jump to the handler's targets, speak its default, or record the error. */
    method HandleError(c: Component, id: Id, a: Answer) returns (otherBranch: bool)
      modifies this
      ensures otherBranch == GoesTo(c, a)
      ensures path == if GoesTo(c, a) then old(path) + c.handler.value.goto else old(path)
      ensures events == old(events) + if UsesDefault(c, a) then [Spoke(id)] else []
      ensures error == if Unhandled(c, a) then a.error else old(error)
    {
      otherBranch := false;
      if a.error != "" {
        if c.handler.Some? && c.handler.value.goto != [] {
          path := path + c.handler.value.goto;
          otherBranch := true;
        } else if c.handler.Some? && c.handler.value.hasDefault {
          events := events + [Spoke(id)];
        } else {
          error := a.error;
        }
      }
    }

    /** Completion of the entry, or its place in the stream queue, and completion of a closed container. */
    method Report(c: Component, id: Id, a: Answer, partials: seq<Id>) returns (rest: seq<Id>)
      requires IsItem(c.kind) ==> c.parent.Some?
      modifies this`events
      ensures var queued := !IsContainer(c.kind) && id in Live(c, id, a) && error == "";
              && rest == partials + (if queued then [id] else [])
              && events == old(events) + (if IsContainer(c.kind) || queued then [] else [Done(id, false)])
                           + (if IsItem(c.kind) && a.ended then [Done(c.parent.value, false)] else [])
    {
      rest := partials;
      if !IsContainer(c.kind) {
        if id in Live(c, id, a) && error == "" {
          rest := rest + [id];
        } else {
          events := events + [Done(id, false)];
        }
      }
      if IsItem(c.kind) && a.ended {
        events := events + [Done(c.parent.value, false)];
      }
    }

    /**
     The main loop, for as many batches as the oracle answers. A run that is canceled before it
     starts leaves the appended Begin in the path.
     */
    method RunImpl(canceled: bool, oracle: seq<BatchOracle>) returns (status: Status, ghost final: State)
      requires WellFormed(g)
      modifies this
      ensures canceled ==> status == Canceled && path == Start(old(path)).path && error == old(error) && events == []
      ensures !canceled ==>
                final == Run(g, Start(old(path)), oracle) && status == final.status && Holds(final, final.partials)
    {
      events := [];
      var isResume := IsResume(path);
      if !isResume {
        path := path + [BEGIN];
      }
      if canceled {
        return Canceled, Start(old(path));
      }
      if !isResume {
        events := [WorkflowStarted];
      }
      var idx := if isResume then 0 else |path| - 1;
      error := "";
      var partials: seq<Id> := [];
      status := Running;
      final := Start(old(path));
      var k := 0;
      assert oracle[0..] == oracle;
      while k < |oracle| && status == Running
        invariant 0 <= k <= |oracle|
        invariant Proper(final) && Run(g, final, oracle[k..]) == Run(g, Start(old(path)), oracle)
        invariant Holds(final, partials) && status == final.status && idx == final.idx
      {
        assert oracle[k..][0] == oracle[k] && oracle[k..][1..] == oracle[k + 1..];
        BatchStepIsProper(g, final, oracle[k]);
        status, idx, partials := OneBatch(idx, partials, oracle[k], final);
        final := BatchStep(g, final, oracle[k]);
        k := k + 1;
      }
    }

    /** One pass of the main loop. */
    method OneBatch(idx: nat, partials: seq<Id>, o: BatchOracle, ghost st: State)
      returns (status: Status, next: nat, rest: seq<Id>)
      requires WellFormed(g) && st.status == Running && Proper(st) && Holds(st, partials) && idx == st.idx
      modifies this
      ensures var r := BatchStep(g, st, o); Holds(r, rest) && status == r.status && next == r.idx
    {
      hide WellFormed, Settle, Processed, KnownPrefix, StartEvents;
      next, rest := idx, partials;
      var batch := path[idx..];
      var announced := Announce(batch);
      if !announced {
        return Crashed, next, rest;
      }
      if o.canceled {
        return Canceled, next, rest;
      }
      AdmitBatch(idx);
      var end := |path|;
      rest := PostProcessBatch(idx, partials, o, st);
      ProcessedKeeps(g, st, o);
      hide Survivors, Admit;
      status, next := Conclude(idx, end, rest, o.needsInput, Processed(g, st, o), Survivors(g, st));
    }

    /** The `node_started` events; a name that is no component ends the run with an exception. */
    method Announce(batch: seq<Id>) returns (known: bool)
      modifies this`events
      ensures known == Known(g, batch)
      ensures events == old(events) + StartEvents(if known then batch else KnownPrefix(g, batch))
    {
      assert batch[0..] == batch;
      for k := 0 to |batch|
        invariant Known(g, batch[..k])
        invariant events == old(events) + StartEvents(batch[..k])
        invariant KnownPrefix(g, batch) == batch[..k] + KnownPrefix(g, batch[k..])
      {
        assert batch[k..][0] == batch[k] && batch[k..][1..] == batch[k + 1..];
        if batch[k] !in g {
          return false;
        }
        assert StartEvents(batch[..k + 1]) == StartEvents(batch[..k]) + [Started(batch[k])];
        events := events + [Started(batch[k])];
      }
      assert batch[..|batch|] == batch;
      return true;
    }

    /** The for-loop over the batch after admission. */
    method PostProcessBatch(idx: nat, partials: seq<Id>, o: BatchOracle, ghost st: State) returns (rest: seq<Id>)
      requires WellFormed(g) && st.idx == idx <= |st.path| && Known(g, st.path[idx..])
      requires Holds(Admitted(g, st), partials)
      modifies this
      ensures Holds(Processed(g, st, o), rest)
    {
      hide Admitted, Processed, PostStep, PostBatch, WellFormed, Survivors, Known;
      ghost var cur := Admitted(g, st);
      BatchIsKnown(g, st, o);
      var end := |path|;
      rest := partials;
      for i := idx to end
        invariant end <= |path| && Known(g, path[i..end]) && Holds(cur, rest)
        invariant PostBatch(g, cur, i, end, o.answer) == Processed(g, st, o)
      {
        PostBatchUnfolds(g, cur, i, end, o.answer);
        rest := PostProcess(i, o.answer(i), rest, cur);
        cur := PostStep(g, cur, i, o.answer(i));
      }
      NothingLeft(g, cur, end, o.answer);
    }

    /** After a batch: break on an error, suspend at a form that needs input, or go round again. */
    method Conclude(idx: nat, end: nat, partials: seq<Id>, needsInput: bool, ghost st: State, ghost batch: seq<Id>)
      returns (status: Status, next: nat)
      requires Holds(st, partials) && st.idx == idx <= end <= |path| && st.status == Running
      modifies this
      ensures var r := Settle(g, st, end, needsInput, batch); Holds(r, partials) && status == r.status && next == r.idx
    {
      if error != "" {
        path := path[..idx];
        if Text.Contains(error, CANCELED) {
          events := events + [WorkflowFinished];
        }
        return Failed, idx;
      }
      var pending := path[end..];
      if FillUps(g, pending) != [] && needsInput {
        path := FillUps(g, pending) + Others(g, pending);
        events := events + [AskUser];
        return Suspended, end;
      }
      if end < |path| {
        return Running, end;
      }
      path := path[..end];
      events := events + [WorkflowFinished];
      return Finished, end;
    }
  }

  lemma {:induction false} BatchIsKnown(g: Graph, st: State, o: BatchOracle)
    requires WellFormed(g) && st.idx <= |st.path| && Known(g, st.path[st.idx..])
    ensures var admitted := Admitted(g, st);
            && st.idx <= |admitted.path| && Known(g, admitted.path[st.idx..|admitted.path|])
            && PostBatch(g, admitted, st.idx, |admitted.path|, o.answer) == Processed(g, st, o)
  {
  }

  lemma {:induction false} NothingLeft(g: Graph, st: State, end: nat, answer: nat -> Answer)
    requires WellFormed(g) && end <= |st.path| && Known(g, st.path[end..end])
    ensures PostBatch(g, st, end, end, answer) == st
  {
  }

  lemma {:induction false} AdmitUnfolds(g: Graph, path: seq<Id>, i: nat)
    requires i < |path| && Known(g, path[i..])
    ensures path[i] in g
    ensures var id := path[i];
            if IsExempt(g[id].kind) || !Missing(g, id, path[..i]) || IsFillUpId(path[0]) then
              path[..i] + Admit(g, path[..i], path[i..]) == path[..i + 1] + Admit(g, path[..i + 1], path[i + 1..])
            else
              Admit(g, path[..i], path[i..]) == Admit(g, path[..i], path[i + 1..])
    ensures Known(g, path[i + 1..])
  {
    assert path[i..][0] == path[i] && path[i..][1..] == path[i + 1..];
    assert path[..i] + [path[i]] == path[..i + 1];
    assert path[..i] != [] ==> path[..i][0] == path[0];
  }

  lemma {:induction false} EventsInOrder(
      c: Component, id: Id, a: Answer, released: seq<Id>, queued: bool, closes: Option<Id>, events: seq<Event>)
    ensures events + StepEvents(c, id, a, released, queued, closes)
         == events + (if c.kind == Message then [Spoke(id)] + Deferred(released) else [])
            + (if UsesDefault(c, a) then [Spoke(id)] else [])
            + (if IsContainer(c.kind) || queued then [] else [Done(id, false)])
            + (if closes.Some? then [Done(closes.value, false)] else [])
  {
  }
}
