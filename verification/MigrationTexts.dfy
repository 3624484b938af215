/** What the migration does to texts, edges and everything else: references and ids change, nothing more. */
module MigrationTexts {
  import opened Wrappers
  import opened Dicts
  import opened Json
  import opened Migration
  import opened MigrationGraph
  import opened MigrationNames

  // ----- every place of a value -----

  datatype Place = Key(name: string) | Index(i: nat)

  /** The value at a place inside a value. */
  function Inside(v: Value, places: seq<Place>): Option<Value>
    decreases |places|
  {
    if places == [] then Some(v)
    else match places[0]
         case Key(name) =>
           var w: Option<Value> := if v.Obj? then Lookup(v.entries, name) else None;
           if w.None? then None else Inside(w.value, places[1..])
         case Index(i) => if v.Arr? && i < |v.items| then Inside(v.items[i], places[1..]) else None
  }

  /** Rewriting changes the texts, at every place, and nothing else; no place appears or goes away. */
  lemma {:induction false} TextsAreRewritten(ids: set<string>, v: Value, places: seq<Place>)
    ensures var before, after := Inside(v, places), Inside(RewriteValue(ids, v), places);
            && (before.None? <==> after.None?)
            && (before.Some? && before.value.Str? ==> after.value == Str(RewriteText(ids, before.value.text)))
            && (before.Some? && before.value.Arr? ==>
                  after.value.Arr? && |after.value.items| == |before.value.items|)
            && (before.Some? && before.value.Obj? ==>
                  after.value.Obj? && KeySeq(after.value.entries) == KeySeq(before.value.entries))
            && (before.Some? && !before.value.Str? && !before.value.Arr? && !before.value.Obj? ==> after == before)
    decreases |places|
  {
    if places == [] {
      RewritesOne(ids, v);
    } else {
      var first, rest := places[0], places[1..];
      if first.Key? && v.Obj? {
        MigrationNames.RewrittenAt(ids, v, first.name);
        var w: Option<Value> := Lookup(v.entries, first.name);
        hide RewriteValue, RewriteText, Lookup;
        if w.Some? {
          TextsAreRewritten(ids, w.value, rest);
        }
      } else if first.Index? && v.Arr? && first.i < |v.items| {
        assert RewriteValue(ids, v).items[first.i] == RewriteValue(ids, v.items[first.i]);
        TextsAreRewritten(ids, v.items[first.i], rest);
      }
    }
  }

  lemma {:induction false} RewritesOne(ids: set<string>, v: Value)
    ensures var w := RewriteValue(ids, v);
            && (v.Str? ==> w == Str(RewriteText(ids, v.text)))
            && (v.Arr? ==> w.Arr? && |w.items| == |v.items|)
            && (v.Obj? ==> w.Obj? && KeySeq(w.entries) == KeySeq(v.entries))
            && (!v.Str? && !v.Arr? && !v.Obj? ==> w == v)
  {
    hide RewriteText;
    if v.Obj? {
      var w := RewriteValue(ids, v);
      assert forall i :: 0 <= i < |v.entries| ==> w.entries[i].0 == v.entries[i].0;
    }
  }

  /** A text that is a component's id becomes the new id. */
  lemma {:induction false} IdTexts(ids: set<string>, text: string)
    ensures text in ids ==> RewriteText(ids, text) == RenameId(text)
  {
  }

  // ----- edges -----

  /** Edge ids have the component ids replaced, longest first, one after the other. */
  ghost predicate EdgeIsNew(ids: set<string>, order: seq<string>, before: Value, after: Value) {
    && (!before.Obj? ==> after == before)
    && (before.Obj? ==>
          && after.Obj?
          && At(after, "source") == Mapped(At(before, "source"), v => MapIdValue(ids, v))
          && At(after, "target") == Mapped(At(before, "target"), v => MapIdValue(ids, v))
          && At(after, "id") == Mapped(At(before, "id"), v => FixEdgeId(order, v))
          && forall key :: key !in ["source", "target", "id"] ==> At(after, key) == At(before, key))
  }

  lemma {:induction false} EdgeAt(ids: set<string>, order: seq<string>, v: Value, key: string)
    requires v.Obj?
    ensures FixEdge(ids, order, v).Obj?
    ensures At(FixEdge(ids, order, v), key)
         == if key == "source" || key == "target" then Mapped(At(v, key), w => MapIdValue(ids, w))
            else if key == "id" then Mapped(At(v, key), w => FixEdgeId(order, w))
            else At(v, key)
  {
    var e1 := Update(v.entries, "source", s => MapIdValue(ids, s));
    var e2 := Update(e1, "target", t => MapIdValue(ids, t));
    LookupUpdate(v.entries, "source", s => MapIdValue(ids, s), key);
    LookupUpdate(e1, "target", t => MapIdValue(ids, t), key);
    LookupUpdate(e2, "id", i => FixEdgeId(order, i), key);
    hide Update, Lookup, MapIdValue, FixEdgeId;
  }

  lemma {:induction false} EdgeIsRenamed(ids: set<string>, order: seq<string>, v: Value)
    ensures EdgeIsNew(ids, order, v, FixEdge(ids, order, v))
  {
    if v.Obj? {
      hide FixEdge, At, Mapped;
      EdgeAt(ids, order, v, "source");
      EdgeAt(ids, order, v, "target");
      EdgeAt(ids, order, v, "id");
      forall key | key !in ["source", "target", "id"] ensures At(FixEdge(ids, order, v), key) == At(v, key) {
        EdgeAt(ids, order, v, key);
      }
    }
  }

  // ----- the document -----

  /** In the migrated document every edge of the editor has its new ends and id. */
  lemma {:induction false} EdgesAreRenamed(dsl: Value, components: Entries, graph: Value, edges: seq<Value>)
    requires ComponentsOf(dsl) == Some(Obj(components)) && Normalize(dsl).Some?
    requires At(dsl, "graph") == Some(graph) && At(graph, "edges") == Some(Arr(edges))
    ensures var after: Option<Value> := At(Normalize(dsl).value, "graph");
            && after.Some?
            && var edges': Option<Value> := At(after.value, "edges");
               && edges'.Some? && edges'.value.Arr? && |edges'.value.items| == |edges|
               && forall i :: 0 <= i < |edges| ==>
                    EdgeIsNew(KeySet(components), SortByLength(KeySeq(components)), edges[i], edges'.value.items[i])
  {
    var ids, order := KeySet(components), SortByLength(KeySeq(components));
    MigratedAt(dsl.entries, components, "graph");
    GraphNodes(ids, order, graph);
    hide RewriteComponents, MigrateWith, Lookup, FixGraph, EdgeIsNew, FixEdge;
    forall i | 0 <= i < |edges| ensures EdgeIsNew(ids, order, edges[i], FixEdge(ids, order, edges[i])) {
      EdgeIsRenamed(ids, order, edges[i]);
    }
  }

  /** History, messages and references have their texts rewritten; fields the migration does not know stay. */
  lemma {:induction false} OtherFields(dsl: Value, components: Entries, key: string)
    requires ComponentsOf(dsl) == Some(Obj(components)) && Normalize(dsl).Some?
    ensures key in ["history", "messages", "reference"] ==>
              At(Normalize(dsl).value, key) == Mapped(At(dsl, key), v => RewriteValue(KeySet(components), v))
    ensures key !in ["components", "path", "graph", "history", "messages", "reference"] ==>
              At(Normalize(dsl).value, key) == At(dsl, key)
  {
    MigratedAt(dsl.entries, components, key);
    hide MigrateWith, Lookup, RewriteValue, MigrationRaises;
    if key !in ["components", "path", "graph", "history", "messages", "reference"] {
      UnknownFieldStays(dsl.entries, components, key);
    }
  }

  /** A document without a dict of components stays as it is. */
  lemma {:induction false} NothingToMigrate(dsl: Value)
    ensures (ComponentsOf(dsl).None? || !ComponentsOf(dsl).value.Obj?) ==> Normalize(dsl) == Some(dsl)
  {
    hide ListRaises, ComponentRaises, MigrateWith, Lookup;
  }

  // ----- what raises -----

  /** A list or a dict where an id is looked up. */
  ghost predicate HasUnhashable(v: Option<Value>) {
    v.Some? && v.value.Arr? && exists i :: 0 <= i < |v.value.items| && (v.value.items[i].Arr? || v.value.items[i].Obj?)
  }

  lemma {:induction false} UnhashableIff(v: Option<Value>)
    ensures ListRaises(v) <==> HasUnhashable(v)
  {
    if HasUnhashable(v) {
      var i :| 0 <= i < |v.value.items| && (v.value.items[i].Arr? || v.value.items[i].Obj?);
      assert v.value.items[i] in v.value.items && IsUnhashable(v.value.items[i]);
    }
  }

  /** The migration raises exactly for a list or dict in a path, in a link list, or for an operator's name. */
  lemma {:induction false} RaisesIff(dsl: Value, components: Entries)
    requires ComponentsOf(dsl) == Some(Obj(components))
    ensures Normalize(dsl).None? <==>
              || HasUnhashable(At(dsl, "path"))
              || exists i :: 0 <= i < |components| &&
                   (|| HasUnhashable(At(components[i].1, "downstream"))
                    || HasUnhashable(At(components[i].1, "upstream"))
                    || HasBadName(components[i].1))
  {
    forall v: Option<Value> ensures ListRaises(v) <==> HasUnhashable(v) {
      UnhashableIff(v);
    }
    forall i | 0 <= i < |components|
      ensures ComponentRaises(components[i].1) <==>
                || HasUnhashable(At(components[i].1, "downstream"))
                || HasUnhashable(At(components[i].1, "upstream"))
                || HasBadName(components[i].1)
    {
      hide HasUnhashable, ListRaises, Lookup;
    }
    hide ComponentRaises, HasUnhashable, HasBadName, ListRaises, Lookup, Migrate;
    assert forall i :: 0 <= i < |components| ==> components[i] in components;
  }

  ghost predicate HasBadName(component: Value) {
    var name := OperatorName(component);
    name.Some? && (name.value.Arr? || name.value.Obj?)
  }
}
