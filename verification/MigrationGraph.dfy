/** The migrated canvas is the image of the original under the id map: same graph, new names. */
module MigrationGraph {
  import opened Wrappers
  import opened Dicts
  import opened Json
  import opened Text
  import opened RefScan
  import opened Migration

  // ----- relations of a canvas -----

  ghost predicate ListsUnder(v: Value, key: string, b: string)
    requires v.Obj?
  {
    var list: Option<Value> := Lookup(v.entries, key);
    list.Some? && list.value.Arr? && Str(b) in list.value.items
  }

  /** The component `a` lists `b` under `key`. */
  ghost predicate Links(components: Entries, key: string, a: string, b: string) {
    var v: Option<Value> := Lookup(components, a);
    v.Some? && v.value.Obj? && ListsUnder(v.value, key, b)
  }

  /** The text under `key` in a dict. */
  function TextAt(v: Value, key: string): Option<string> {
    if !v.Obj? then None
    else
      var at: Option<Value> := Lookup(v.entries, key);
      if at.Some? && at.value.Str? then Some(at.value.text) else None
  }

  ghost predicate ParentIs(components: Entries, a: string, b: string) {
    var v: Option<Value> := Lookup(components, a);
    v.Some? && TextAt(v.value, "parent_id") == Some(b)
  }

  ghost predicate Injective(ids: set<string>) {
    forall a, b :: a in ids && b in ids && RenameId(a) == RenameId(b) ==> a == b
  }

  ghost predicate IdsKnown(ids: set<string>, list: Option<Value>) {
    list.Some? && list.value.Arr? ==> forall x :: Str(x) in list.value.items ==> x in ids
  }

  /** Every id a component lists, or names as its parent, is a component. */
  ghost predicate ReferencesKnown(ids: set<string>, v: Value) {
    v.Obj? ==>
      && IdsKnown(ids, Lookup(v.entries, "downstream")) && IdsKnown(ids, Lookup(v.entries, "upstream"))
      && (TextAt(v, "parent_id").Some? ==> TextAt(v, "parent_id").value in ids)
  }

  // ----- rewriting one component -----

  lemma {:induction false} RewrittenEntriesAt(ids: set<string>, entries: Entries, key: string)
    ensures RewriteValue(ids, Obj(entries)).Obj?
    ensures var before: Option<Value> := Lookup(entries, key);
            var after: Option<Value> := Lookup(RewriteValue(ids, Obj(entries)).entries, key);
            (before.None? <==> after.None?) && (before.Some? ==> after.value == RewriteValue(ids, before.value))
  {
    if entries != [] && entries[0].0 != key {
      RewrittenEntriesAt(ids, entries[1..], key);
      assert RewriteValue(ids, Obj(entries)).entries[1..] == RewriteValue(ids, Obj(entries[1..])).entries;
    }
  }

  /** Ids are mapped by the tree rewrite and mapped again explicitly, which is the same as once. */
  lemma {:induction false} ItemTwiceMapped(ids: set<string>, item: Value, b: string)
    requires Injective(ids) && b in ids && (item.Str? ==> item.text in ids)
    ensures MapIdValue(ids, RewriteValue(ids, item)) == Str(RenameId(b)) <==> item == Str(b)
  {
    if item.Str? {
      MapIdTwice(ids, item.text);
    }
  }

  lemma {:induction false} ListImage(ids: set<string>, v: Value, b: string)
    requires v.Arr? && Injective(ids) && b in ids && forall x :: Str(x) in v.items ==> x in ids
    ensures MapIdList(ids, RewriteValue(ids, v)).Arr?
    ensures Str(RenameId(b)) in MapIdList(ids, RewriteValue(ids, v)).items <==> Str(b) in v.items
  {
    var out := MapIdList(ids, RewriteValue(ids, v)).items;
    assert |out| == |v.items|;
    forall i | 0 <= i < |out| ensures out[i] == Str(RenameId(b)) <==> v.items[i] == Str(b) {
      assert v.items[i] in v.items;
      ItemTwiceMapped(ids, v.items[i], b);
    }
    if Str(b) in v.items {
      var i :| 0 <= i < |v.items| && v.items[i] == Str(b);
      assert out[i] in out;
    }
  }

  lemma {:induction false} NonListStays(ids: set<string>, v: Value)
    requires !v.Arr?
    ensures !MapIdList(ids, RewriteValue(ids, v)).Arr?
  {
  }

  lemma {:induction false} ComponentListImage(ids: set<string>, v: Value, key: string, b: string)
    requires key == "downstream" || key == "upstream"
    requires v.Obj? && Injective(ids) && b in ids && IdsKnown(ids, Lookup(v.entries, key))
    ensures var w := RewriteComponent(ids, v);
            && w.Obj?
            && var before: Option<Value>, after: Option<Value> := Lookup(v.entries, key), Lookup(w.entries, key);
               (after.Some? && after.value.Arr? && Str(RenameId(b)) in after.value.items
                <==> before.Some? && before.value.Arr? && Str(b) in before.value.items)
  {
    RewrittenEntriesAt(ids, v.entries, key);
    var entries := RewriteValue(ids, v).entries;
    assert RewriteValue(ids, v) == Obj(entries);
    ComponentAfter(ids, entries, key);
    var before: Option<Value> := Lookup(v.entries, key);
    hide FixComponent, Lookup, MapIdList, RewriteValue, RenameId, Injective;
    if before.Some? {
      if before.value.Arr? {
        ListImage(ids, before.value, b);
      } else {
        NonListStays(ids, before.value);
      }
    }
  }

  lemma {:induction false} ComponentParentImage(ids: set<string>, v: Value, b: string)
    requires v.Obj? && Injective(ids) && b in ids
    requires TextAt(v, "parent_id").Some? ==> TextAt(v, "parent_id").value in ids
    ensures RewriteComponent(ids, v).Obj?
    ensures TextAt(RewriteComponent(ids, v), "parent_id") == Some(RenameId(b)) <==> TextAt(v, "parent_id") == Some(b)
  {
    RewrittenEntriesAt(ids, v.entries, "parent_id");
    var entries := RewriteValue(ids, v).entries;
    assert RewriteValue(ids, v) == Obj(entries);
    ComponentAfter(ids, entries, "parent_id");
    var before: Option<Value> := Lookup(v.entries, "parent_id");
    hide FixComponent, Lookup;
    if before.Some? {
      ItemTwiceMapped(ids, before.value, b);
    }
  }

  // ----- nothing but images -----

  ghost predicate IsImage(ids: set<string>, x: string) {
    exists c :: c in ids && x == RenameId(c)
  }

  lemma {:induction false} ItemIsImage(ids: set<string>, item: Value, x: string)
    requires (item.Str? ==> item.text in ids) && MapIdValue(ids, RewriteValue(ids, item)) == Str(x)
    ensures IsImage(ids, x)
  {
    assert item.Str?;
    MapIdTwice(ids, item.text);
    hide RenameId;
    assert x == RenameId(item.text);
  }

  lemma {:induction false} ListNamesImages(ids: set<string>, v: Value, key: string, x: string)
    requires key == "downstream" || key == "upstream"
    requires v.Obj? && IdsKnown(ids, Lookup(v.entries, key)) && RewriteComponent(ids, v).Obj?
    ensures var after: Option<Value> := Lookup(RewriteComponent(ids, v).entries, key);
            after.Some? && after.value.Arr? && Str(x) in after.value.items ==> IsImage(ids, x)
  {
    RewrittenEntriesAt(ids, v.entries, key);
    var entries := RewriteValue(ids, v).entries;
    assert RewriteValue(ids, v) == Obj(entries);
    ComponentAfter(ids, entries, key);
    var before: Option<Value> := Lookup(v.entries, key);
    var after: Option<Value> := Lookup(RewriteComponent(ids, v).entries, key);
    hide FixComponent, Lookup, IsImage, RenameId;
    if after.Some? && after.value.Arr? && Str(x) in after.value.items {
      var out := MapIdList(ids, RewriteValue(ids, before.value)).items;
      var i :| 0 <= i < |out| && out[i] == Str(x);
      assert before.value.Arr? && before.value.items[i] in before.value.items;
      ItemIsImage(ids, before.value.items[i], x);
    }
  }

  lemma {:induction false} ParentIsImage(ids: set<string>, v: Value, x: string)
    requires v.Obj? && (TextAt(v, "parent_id").Some? ==> TextAt(v, "parent_id").value in ids)
    ensures TextAt(RewriteComponent(ids, v), "parent_id") == Some(x) ==> IsImage(ids, x)
  {
    RewrittenEntriesAt(ids, v.entries, "parent_id");
    var entries := RewriteValue(ids, v).entries;
    assert RewriteValue(ids, v) == Obj(entries);
    ComponentAfter(ids, entries, "parent_id");
    hide FixComponent, Lookup, IsImage, RenameId;
    if TextAt(RewriteComponent(ids, v), "parent_id") == Some(x) {
      ItemIsImage(ids, Lookup(v.entries, "parent_id").value, x);
    }
  }

  // ----- the dict of components -----

  lemma {:induction false} RewrittenAt(ids: set<string>, components: Entries, c: string)
    requires UniqueKeys(components) && Injective(ids) && forall e :: e in components ==> e.0 in ids
    requires Lookup(components, c).Some?
    ensures Lookup(RewriteComponents(ids, components), RenameId(c))
         == Some(RewriteComponent(ids, Lookup(components, c).value))
  {
    var n := |components| - 1;
    var init, last := components[..n], components[n];
    LookupFindsEntry(components, c);
    var v := Lookup(components, c).value;
    assert components == init + [last] && last in components;
    LookupPut(RewriteComponents(ids, init), RenameId(last.0), RewriteComponent(ids, last.1), RenameId(c));
    hide Put, RewriteComponent, RenameId, Lookup;
    if c == last.0 {
      UniqueLookup(components, c, last.1);
    } else {
      assert (c, v) in init;
      UniqueLookup(init, c, v);
      RewrittenAt(ids, init, c);
    }
  }

  /** The hypotheses of the isomorphism. */
  ghost predicate IsClosedCanvas(components: Entries) {
    var ids := KeySet(components);
    && UniqueKeys(components) && Injective(ids)
    && forall e :: e in components ==> ReferencesKnown(ids, e.1)
  }

  lemma {:induction false} NonDictStays(ids: set<string>, v: Value)
    ensures RewriteComponent(ids, v).Obj? <==> v.Obj?
  {
  }

  lemma {:induction false} KeyIsLookedUp(components: Entries, a: string)
    ensures a in KeySet(components) <==> Lookup(components, a).Some?
  {
    LookupFindsEntry(components, a);
    if a in KeySet(components) {
      var e :| e in components && e.0 == a;
    }
  }

  // ----- main results -----

  /**
   On a canvas whose new ids are distinct and whose references name components, the migration is a
   graph isomorphism: downstream, upstream and parent links hold between two components exactly
   when they hold between their images, the components are exactly the images, and their links name
   nothing else.
   */
  lemma {:induction false} ComponentsAreIsomorphic(components: Entries, a: string, b: string)
    requires IsClosedCanvas(components) && a in KeySet(components) && b in KeySet(components)
    ensures var ids := KeySet(components);
            var r := RewriteComponents(ids, components);
            && (Links(r, "downstream", RenameId(a), RenameId(b)) <==> Links(components, "downstream", a, b))
            && (Links(r, "upstream", RenameId(a), RenameId(b)) <==> Links(components, "upstream", a, b))
            && (ParentIs(r, RenameId(a), RenameId(b)) <==> ParentIs(components, a, b))
            && RenameId(a) in KeySet(r)
            && (forall k :: k in KeySet(r) ==> IsImage(ids, k))
            && (forall x ::
                  && (Links(r, "downstream", RenameId(a), x) ==> IsImage(ids, x))
                  && (Links(r, "upstream", RenameId(a), x) ==> IsImage(ids, x))
                  && (ParentIs(r, RenameId(a), x) ==> IsImage(ids, x)))
  {
    var ids := KeySet(components);
    var r := RewriteComponents(ids, components);
    KeyIsLookedUp(components, a);
    LookupFindsEntry(components, a);
    forall e | e in components ensures e.0 in ids {
    }
    RewrittenAt(ids, components, a);
    KeyIsLookedUp(r, RenameId(a));
    var v := Lookup(components, a).value;
    assert (a, v) in components && ReferencesKnown(ids, v);
    NonDictStays(ids, v);
    if v.Obj? {
      ComponentListImage(ids, v, "downstream", b);
      ComponentListImage(ids, v, "upstream", b);
      ComponentParentImage(ids, v, b);
    }
    RewrittenEntries(ids, components);
    LinksNameImages(ids, v);
    hide Lookup, RewriteComponents, RewriteComponent, RenameId, Injective, TextAt;
    forall k | k in KeySet(r) ensures IsImage(ids, k) {
      var e :| e in r && e.0 == k;
      var c :| c in components && e == (RenameId(c.0), RewriteComponent(ids, c.1));
      assert c.0 in ids;
    }
  }

  /** What a rewritten component lists or names as its parent is an image. */
  lemma {:induction false} LinksNameImages(ids: set<string>, v: Value)
    requires ReferencesKnown(ids, v)
    ensures var w := RewriteComponent(ids, v);
            forall x ::
              && (w.Obj? && ListsUnder(w, "downstream", x) ==> IsImage(ids, x))
              && (w.Obj? && ListsUnder(w, "upstream", x) ==> IsImage(ids, x))
              && (TextAt(w, "parent_id") == Some(x) ==> IsImage(ids, x))
  {
    NonDictStays(ids, v);
    hide RewriteComponent, Lookup, IsImage, TextAt;
    if v.Obj? {
      forall x
        ensures ListsUnder(RewriteComponent(ids, v), "downstream", x) ==> IsImage(ids, x)
        ensures ListsUnder(RewriteComponent(ids, v), "upstream", x) ==> IsImage(ids, x)
        ensures TextAt(RewriteComponent(ids, v), "parent_id") == Some(x) ==> IsImage(ids, x)
      {
        ListNamesImages(ids, v, "downstream", x);
        ListNamesImages(ids, v, "upstream", x);
        ParentIsImage(ids, v, x);
      }
    } else {
      NoTextAt(RewriteComponent(ids, v), "parent_id");
    }
  }

  lemma {:induction false} NoTextAt(v: Value, key: string)
    requires !v.Obj?
    ensures TextAt(v, key) == None
  {
  }

  function MapText(ids: set<string>, t: Option<string>): Option<string> {
    match t case None => None case Some(x) => Some(MapId(ids, x))
  }

  /** Nodes keep their ids and parents up to the map. */
  lemma {:induction false} NodeImage(ids: set<string>, v: Value)
    ensures TextAt(FixNode(ids, v), "id") == MapText(ids, TextAt(v, "id"))
    ensures TextAt(FixNode(ids, v), "parentId") == MapText(ids, TextAt(v, "parentId"))
  {
    if v.Obj? {
      hide Update, Lookup, MapId, FixData;
      var e1 := Update(v.entries, "id", i => MapIdValue(ids, i));
      var e2 := Update(e1, "parentId", p => MapIdValue(ids, p));
      var e3 := Update(e2, "type", RenameTypeValue);
      forall key | key == "id" || key == "parentId"
        ensures Lookup(FixNode(ids, v).entries, key) == Lookup(e2, key)
        ensures key == "id" ==> Lookup(e2, key) == Lookup(e1, key)
      {
        LookupUpdate(e1, "parentId", p => MapIdValue(ids, p), key);
        LookupUpdate(e2, "type", RenameTypeValue, key);
        LookupUpdate(e3, "data", d => FixData(ids, d), key);
      }
      LookupUpdate(v.entries, "id", i => MapIdValue(ids, i), "id");
      LookupUpdate(v.entries, "id", i => MapIdValue(ids, i), "parentId");
      LookupUpdate(e1, "parentId", p => MapIdValue(ids, p), "parentId");
    }
  }

  /** Edges keep their end points up to the map. */
  lemma {:induction false} EdgeImage(ids: set<string>, order: seq<string>, v: Value)
    ensures TextAt(FixEdge(ids, order, v), "source") == MapText(ids, TextAt(v, "source"))
    ensures TextAt(FixEdge(ids, order, v), "target") == MapText(ids, TextAt(v, "target"))
  {
    if v.Obj? {
      hide Update, Lookup, MapId, FixEdgeId;
      var e1 := Update(v.entries, "source", s => MapIdValue(ids, s));
      var e2 := Update(e1, "target", t => MapIdValue(ids, t));
      LookupUpdate(v.entries, "source", s => MapIdValue(ids, s), "source");
      LookupUpdate(e1, "target", t => MapIdValue(ids, t), "source");
      LookupUpdate(e2, "id", i => FixEdgeId(order, i), "source");
      LookupUpdate(v.entries, "source", s => MapIdValue(ids, s), "target");
      LookupUpdate(e1, "target", t => MapIdValue(ids, t), "target");
      LookupUpdate(e2, "id", i => FixEdgeId(order, i), "target");
    }
  }

  /** The list under a key of a dict. */
  function ListAt(v: Value, key: string): Option<seq<Value>> {
    if !v.Obj? then None
    else
      var at: Option<Value> := Lookup(v.entries, key);
      if at.Some? && at.value.Arr? then Some(at.value.items) else None
  }

  /** Entry by entry, the migrated path, nodes and edges name the images of what they named. */
  lemma {:induction false} DocumentImage(entries: Entries, components: Entries)
    requires Lookup(entries, "components") == Some(Obj(components))
    ensures var ids, dsl, out := KeySet(components), Obj(entries), Migrate(Obj(entries));
            var before, after := ListAt(dsl, "path"), ListAt(out, "path");
            && (before.None? <==> after.None?)
            && (before.Some? ==>
                  && |after.value| == |before.value|
                  && forall i :: 0 <= i < |before.value| ==> after.value[i] == MapIdValue(ids, before.value[i]))
    ensures var ids, graph: Option<Value> := KeySet(components), Lookup(entries, "graph");
            var after: Option<Value> := Lookup(Migrate(Obj(entries)).entries, "graph");
            (graph.None? <==> after.None?) && (graph.Some? ==> GraphImage(ids, graph.value, after.value))
  {
    MigratedAt(entries, components, "path");
    MigratedAt(entries, components, "graph");
    hide MigrateWith, FixGraph, Lookup;
    var ids, order := KeySet(components), SortByLength(KeySeq(components));
    var graph: Option<Value> := Lookup(entries, "graph");
    if graph.Some? {
      FixGraphImage(ids, order, graph.value);
    }
  }

  ghost predicate GraphImage(ids: set<string>, before: Value, after: Value) {
    && (ListAt(before, "nodes").None? <==> ListAt(after, "nodes").None?)
    && (ListAt(before, "edges").None? <==> ListAt(after, "edges").None?)
    && (ListAt(before, "nodes").Some? ==>
          var ns, ns' := ListAt(before, "nodes").value, ListAt(after, "nodes").value;
          |ns'| == |ns| && forall i :: 0 <= i < |ns| ==>
            && TextAt(ns'[i], "id") == MapText(ids, TextAt(ns[i], "id"))
            && TextAt(ns'[i], "parentId") == MapText(ids, TextAt(ns[i], "parentId")))
    && (ListAt(before, "edges").Some? ==>
          var es, es' := ListAt(before, "edges").value, ListAt(after, "edges").value;
          |es'| == |es| && forall i :: 0 <= i < |es| ==>
            && TextAt(es'[i], "source") == MapText(ids, TextAt(es[i], "source"))
            && TextAt(es'[i], "target") == MapText(ids, TextAt(es[i], "target")))
  }

  lemma {:induction false} FixGraphImage(ids: set<string>, order: seq<string>, v: Value)
    ensures GraphImage(ids, v, FixGraph(ids, order, v))
  {
    if v.Obj? {
      var e1 := Update(v.entries, "nodes", ns => FixNodes(ids, ns));
      LookupUpdate(v.entries, "nodes", ns => FixNodes(ids, ns), "nodes");
      LookupUpdate(e1, "edges", es => FixEdges(ids, order, es), "nodes");
      LookupUpdate(v.entries, "nodes", ns => FixNodes(ids, ns), "edges");
      LookupUpdate(e1, "edges", es => FixEdges(ids, order, es), "edges");
      hide Update, Lookup, FixNode, FixEdge, TextAt, MapText;
      forall n ensures TextAt(FixNode(ids, n), "id") == MapText(ids, TextAt(n, "id"))
                    && TextAt(FixNode(ids, n), "parentId") == MapText(ids, TextAt(n, "parentId")) {
        NodeImage(ids, n);
      }
      forall e ensures TextAt(FixEdge(ids, order, e), "source") == MapText(ids, TextAt(e, "source"))
                    && TextAt(FixEdge(ids, order, e), "target") == MapText(ids, TextAt(e, "target")) {
        EdgeImage(ids, order, e);
      }
    }
  }

  // ----- references in texts -----

  lemma {:induction false} MapIdKeepsIds(ids: set<string>)
    ensures KeepsIds(id => MapId(ids, id))
  {
    forall id | id != "" && All(id, IsIdChar) ensures MapId(ids, id) != "" && All(MapId(ids, id), IsIdChar) {
      RenameIdChars(id);
    }
  }

  lemma {:induction false} RenameIdChars(id: string)
    requires id != "" && All(id, IsIdChar)
    ensures RenameId(id) != "" && All(RenameId(id), IsIdChar)
  {
    RenameCases(id);
    hide RenameId;
    assert All("TokenChunker:", IsIdChar) && All("TitleChunker:", IsIdChar) && All("DocGenerator:", IsIdChar);
  }

  /**
   In every text that is not itself a component id, the references found after the rewrite are the
   ones before, ids mapped.
   */
  lemma {:induction false} TextReferencesAreMapped(ids: set<string>, text: string)
    requires text !in ids
    ensures Scan(RewriteText(ids, text)) == RenameAll(Scan(text), id => MapId(ids, id))
  {
    MapIdKeepsIds(ids);
    ScanRewritten(text, id => MapId(ids, id));
  }

  // ----- a second migration does not raise -----

  lemma {:induction false} KindStays(ids: set<string>, v: Value)
    ensures IsUnhashable(RewriteValue(ids, v)) <==> IsUnhashable(v)
  {
  }

  lemma {:induction false} ListStaysHashable(ids: set<string>, v: Value)
    ensures ListRaises(Some(MapIdList(ids, v))) <==> ListRaises(Some(v))
    ensures ListRaises(Some(RewriteValue(ids, v))) <==> ListRaises(Some(v))
  {
    if v.Arr? {
      var a, b := MapIdList(ids, v).items, RewriteValue(ids, v).items;
      forall i | 0 <= i < |v.items|
        ensures IsUnhashable(a[i]) <==> IsUnhashable(v.items[i])
        ensures IsUnhashable(b[i]) <==> IsUnhashable(v.items[i])
      {
        KindStays(ids, v.items[i]);
      }
      if ListRaises(Some(v)) {
        var i :| 0 <= i < |v.items| && IsUnhashable(v.items[i]);
        assert a[i] in a && b[i] in b;
      }
      if item :| item in a && IsUnhashable(item) {
        var i :| 0 <= i < |a| && a[i] == item;
        assert v.items[i] in v.items;
      }
      if item :| item in b && IsUnhashable(item) {
        var i :| 0 <= i < |b| && b[i] == item;
        assert v.items[i] in v.items;
      }
    }
  }

  lemma {:induction false} ObjStaysHashable(ids: set<string>, v: Value)
    requires v.Obj?
    requires (Lookup(v.entries, "component_name").Some? ==> !IsUnhashable(Lookup(v.entries, "component_name").value))
    ensures var w := FixObj(RewriteValue(ids, v));
            && w.Obj? && Lookup(w.entries, "component_name").Some?
            && !IsUnhashable(Lookup(w.entries, "component_name").value)
  {
    RewrittenEntriesAt(ids, v.entries, "component_name");
    var entries := RewriteValue(ids, v).entries;
    var name := match Lookup(entries, "component_name") case None => Null case Some(n) => n;
    LookupPut(entries, "component_name", RenameNameValue(name), "component_name");
    hide Lookup, Put, RenameName;
  }

  lemma {:induction false} ComponentStaysHashable(ids: set<string>, v: Value)
    requires !ComponentRaises(v)
    ensures !ComponentRaises(RewriteComponent(ids, v))
  {
    if v.Obj? {
      var entries := RewriteValue(ids, v).entries;
      assert RewriteValue(ids, v) == Obj(entries);
      RewrittenEntriesAt(ids, v.entries, "obj");
      RewrittenEntriesAt(ids, v.entries, "downstream");
      RewrittenEntriesAt(ids, v.entries, "upstream");
      ComponentAfter(ids, entries, "obj");
      ComponentAfter(ids, entries, "downstream");
      ComponentAfter(ids, entries, "upstream");
      var obj: Option<Value>, down: Option<Value>, up: Option<Value> :=
        Lookup(v.entries, "obj"), Lookup(v.entries, "downstream"), Lookup(v.entries, "upstream");
      if obj.Some? && obj.value.Obj? {
        ObjStaysHashable(ids, obj.value);
      }
      hide Lookup, FixComponent;
      if down.Some? {
        ListStaysHashable(ids, down.value);
        ListStaysHashable(ids, RewriteValue(ids, down.value));
      }
      if up.Some? {
        ListStaysHashable(ids, up.value);
        ListStaysHashable(ids, RewriteValue(ids, up.value));
      }
    }
  }

  /** The migration as the program exposes it: its result migrates to itself, without raising. */
  lemma {:induction false} NormalizeIsIdempotent(dsl: Value)
    requires Normalize(dsl).Some?
    ensures Normalize(Normalize(dsl).value) == Normalize(dsl)
  {
    MigrationIsIdempotent(dsl);
    if dsl.Obj? {
      var components: Option<Value> := Lookup(dsl.entries, "components");
      if components.Some? && components.value.Obj? {
        MigratedDoesNotRaise(dsl.entries, components.value.entries);
      }
    }
  }

  lemma {:induction false} MigratedDoesNotRaise(entries: Entries, components: Entries)
    requires Lookup(entries, "components") == Some(Obj(components)) && !MigrationRaises(Obj(entries))
    ensures !MigrationRaises(Migrate(Obj(entries)))
  {
    var ids := KeySet(components);
    MigratedAt(entries, components, "components");
    MigratedAt(entries, components, "path");
    RewrittenEntries(ids, components);
    var r, path: Option<Value> := RewriteComponents(ids, components), Lookup(entries, "path");
    if path.Some? {
      ListStaysHashable(ids, path.value);
    }
    hide MigrateWith, RewriteComponents, Lookup, ListRaises;
    forall e | e in r ensures !ComponentRaises(e.1) {
      var c :| c in components && e == (RenameId(c.0), RewriteComponent(ids, c.1));
      ComponentStaysHashable(ids, c.1);
    }
  }
}
