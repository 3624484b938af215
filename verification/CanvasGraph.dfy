/** The component graph the canvas schedules (agent/canvas.py, agent/component/). */
module CanvasGraph {
  import opened Wrappers
  import Text

  type Id = string

  /** The component names the scheduler tells apart; every other component is `Ordinary`. */
  datatype Kind =
    | Begin | UserFillUp | Message | Branching
    | Iteration | Loop | IterationItem | LoopItem | ExitLoop
    | Ordinary

  /** `exception_handler()`: where to go on an error, and whether a default value is configured. */
  datatype Handler = Handler(goto: seq<Id>, hasDefault: bool)

  /** `refs` are the `_cpn_id`s of the input elements; `start` is the item node of a container. */
  datatype Component = Component(kind: Kind, refs: seq<Id>, downstream: seq<Id>, parent: Option<Id>,
                                 start: Id, handler: Option<Handler>)

  type Graph = map<Id, Component>

  const BEGIN: Id := "begin"

  predicate IsContainer(kind: Kind) {
    kind == Iteration || kind == Loop
  }

  predicate IsItem(kind: Kind) {
    kind == IterationItem || kind == LoopItem
  }

  /** Components that are never held back by the admission test. */
  predicate IsExempt(kind: Kind) {
    kind == Begin || kind == UserFillUp
  }

  /** What the code dereferences without a check: `begin`, and the parent of items and loop exits. */
  ghost predicate WellFormed(g: Graph) {
    && BEGIN in g && g[BEGIN].kind == Begin
    && forall id :: id in g ==>
         && (g[id].parent.Some? ==> g[id].parent.value in g && IsContainer(g[g[id].parent.value].kind))
         && (IsItem(g[id].kind) || g[id].kind == ExitLoop ==> g[id].parent.Some?)
  }

  /** `id.lower().find("userfillup") >= 0` */
  predicate IsFillUpId(id: Id) {
    Text.Contains(Text.Lower(id), "userfillup")
  }

  /** Canvases name their UserFillUp components after the component. */
  ghost predicate FillUpsAreNamed(g: Graph) {
    forall id :: id in g && g[id].kind == UserFillUp ==> IsFillUpId(id)
  }

  lemma {:induction false} BeginIsNoFillUp()
    ensures !IsFillUpId(BEGIN)
  {
    Text.ContainsIffOccurs(Text.Lower(BEGIN), "userfillup");
  }

  /** Some component that `id` refers to does not occur in `earlier`. */
  predicate Missing(g: Graph, id: Id, earlier: seq<Id>)
    requires id in g
  {
    exists r :: r in g[id].refs && r != "" && r !in earlier
  }

  predicate Known(g: Graph, ids: seq<Id>) {
    forall id :: id in ids ==> id in g
  }

  /** The longest prefix of known components. */
  function KnownPrefix(g: Graph, ids: seq<Id>): seq<Id> {
    if ids == [] || ids[0] !in g then [] else [ids[0]] + KnownPrefix(g, ids[1..])
  }

  lemma {:induction false} KnownPrefixOfKnown(g: Graph, ids: seq<Id>)
    ensures Known(g, ids) <==> KnownPrefix(g, ids) == ids
  {
    if ids != [] {
      KnownPrefixOfKnown(g, ids[1..]);
      assert ids == [ids[0]] + ids[1..];
    }
  }
}
