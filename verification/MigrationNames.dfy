/** What the migration is for: legacy operator names are gone from the output, and nothing else is renamed. */
module MigrationNames {
  import opened Wrappers
  import opened Dicts
  import opened Json
  import opened Text
  import opened Migration
  import opened MigrationGraph

  // ----- the pairs, spelled out -----

  predicate IsLegacyName(name: string) {
    name == "Splitter" || name == "HierarchicalMerger" || name == "PDFGenerator"
  }

  function NewName(name: string): (r: string)
    ensures !IsLegacyName(r) && (!IsLegacyName(name) ==> r == name)
  {
    if name == "Splitter" then assert "TokenChunker"[0] == 'T'; "TokenChunker"
    else if name == "HierarchicalMerger" then assert "TitleChunker"[0] == 'T'; "TitleChunker"
    else if name == "PDFGenerator" then assert "DocGenerator"[0] == 'D'; "DocGenerator"
    else name
  }

  function NewType(name: string): string {
    if name == "splitterNode" then "chunkerNode" else name
  }

  lemma {:induction false} NamesAreNew(name: string)
    ensures RenameName(name) == NewName(name) && RenameType(name) == NewType(name)
  {
    var t1 := COMPONENT_RENAMES[1..];
    assert t1 == [("HierarchicalMerger", "TitleChunker"), ("PDFGenerator", "DocGenerator")];
    assert t1[1..] == [("PDFGenerator", "DocGenerator")] && t1[1..][1..] == [];
    assert Lookup(t1[1..], name) == if name == "PDFGenerator" then Some("DocGenerator") else None;
    assert Lookup(t1, name) == if name == "HierarchicalMerger" then Some("TitleChunker") else Lookup(t1[1..], name);
    assert NODE_TYPE_RENAMES[1..] == [];
  }

  function NewNameOf(v: Value): Value {
    if v.Str? then Str(NewName(v.text)) else v
  }

  function NewTypeOf(v: Value): Value {
    if v.Str? then Str(NewType(v.text)) else v
  }

  /** The value under a key of a dict. */
  function At(v: Value, key: string): Option<Value> {
    if v.Obj? then Lookup(v.entries, key) else None
  }

  function Mapped(v: Option<Value>, f: Value -> Value): Option<Value> {
    match v case None => None case Some(w) => Some(f(w))
  }

  // ----- components -----

  lemma {:induction false} RewrittenAt(ids: set<string>, v: Value, key: string)
    requires v.Obj?
    ensures RewriteValue(ids, v).Obj? && At(RewriteValue(ids, v), key) == Mapped(At(v, key), w => RewriteValue(ids, w))
  {
    RewrittenEntriesAt(ids, v.entries, key);
    assert v == Obj(v.entries);
  }

  /**
   The operator of a component: its name is new, and set where it was missing; its parameters only
   have references rewritten.
   */
  lemma {:induction false} OperatorImage(ids: set<string>, v: Value, key: string)
    requires v.Obj?
    ensures var w := FixObj(RewriteValue(ids, v));
            && w.Obj?
            && (key != "component_name" ==> At(w, key) == Mapped(At(v, key), p => RewriteValue(ids, p)))
            && At(w, "component_name") ==
                 match At(v, "component_name")
                 case None => Some(Null)
                 case Some(n) => Some(NewNameOf(RewriteValue(ids, n)))
  {
    RewrittenAt(ids, v, key);
    RewrittenAt(ids, v, "component_name");
    var u := RewriteValue(ids, v);
    var name := match Lookup(u.entries, "component_name") case None => Null case Some(n) => n;
    if name.Str? {
      NamesAreNew(name.text);
    }
    LookupPut(u.entries, "component_name", RenameNameValue(name), key);
    LookupPut(u.entries, "component_name", RenameNameValue(name), "component_name");
    hide RewriteValue, Lookup, Put, RenameName;
  }

  /**
   An operator and its image: the name is new, and set where it was missing; parameters only have
   references rewritten.
   */
  ghost predicate OperatorIsNew(ids: set<string>, before: Value, after: Value) {
    && (!before.Obj? ==> after == RewriteValue(ids, before))
    && (before.Obj? ==>
          && after.Obj?
          && (forall key :: key != "component_name" ==>
                At(after, key) == Mapped(At(before, key), p => RewriteValue(ids, p)))
          && At(after, "component_name") ==
               match At(before, "component_name")
               case None => Some(Null)
               case Some(n) => Some(NewNameOf(RewriteValue(ids, n))))
  }

  lemma {:induction false} OperatorIsRenamed(ids: set<string>, v: Value)
    ensures OperatorIsNew(ids, v, FixObj(RewriteValue(ids, v)))
  {
    if v.Obj? {
      hide FixObj, RewriteValue, At, Mapped;
      OperatorImage(ids, v, "component_name");
      forall key | key != "component_name"
        ensures At(FixObj(RewriteValue(ids, v)), key) == Mapped(At(v, key), p => RewriteValue(ids, p))
      {
        OperatorImage(ids, v, key);
      }
    } else {
      NonDictOperator(ids, v);
    }
  }

  /**
   One migrated component: its operator is the image, its links are mapped, all else only has
   references rewritten.
   */
  ghost predicate ComponentImage(ids: set<string>, before: Value, after: Value) {
    before.Obj? ==>
      && after.Obj?
      && (At(before, "obj").None? <==> At(after, "obj").None?)
      && (At(before, "obj").Some? ==> OperatorIsNew(ids, At(before, "obj").value, At(after, "obj").value))
      && forall key :: key != "obj" && key != "downstream" && key != "upstream" && key != "parent_id" ==>
           At(after, key) == Mapped(At(before, key), w => RewriteValue(ids, w))
  }

  lemma {:induction false} ComponentAt(ids: set<string>, v: Value, key: string)
    requires v.Obj? && key != "downstream" && key != "upstream" && key != "parent_id"
    ensures RewriteComponent(ids, v).Obj?
    ensures key == "obj" ==> At(RewriteComponent(ids, v), key) == Mapped(At(v, key), o => FixObj(RewriteValue(ids, o)))
    ensures key != "obj" ==> At(RewriteComponent(ids, v), key) == Mapped(At(v, key), w => RewriteValue(ids, w))
  {
    RewrittenAt(ids, v, key);
    FixedAt(ids, RewriteValue(ids, v), key);
    hide RewriteValue, FixComponent, FixObj, Lookup;
  }

  lemma {:induction false} ComponentIsImage(ids: set<string>, v: Value)
    ensures ComponentImage(ids, v, RewriteComponent(ids, v))
  {
    hide RewriteComponent, At, Mapped;
    if v.Obj? {
      forall key | key != "downstream" && key != "upstream" && key != "parent_id"
        ensures RewriteComponent(ids, v).Obj?
        ensures key == "obj" ==>
                  At(RewriteComponent(ids, v), key) == Mapped(At(v, key), o => FixObj(RewriteValue(ids, o)))
        ensures key != "obj" ==> At(RewriteComponent(ids, v), key) == Mapped(At(v, key), w => RewriteValue(ids, w))
      {
        ComponentAt(ids, v, key);
      }
      ObjIsRenamed(ids, v);
    }
  }

  lemma {:induction false} ObjIsRenamed(ids: set<string>, v: Value)
    requires v.Obj?
    ensures RewriteComponent(ids, v).Obj?
    ensures At(v, "obj").None? <==> At(RewriteComponent(ids, v), "obj").None?
    ensures At(v, "obj").Some? ==> OperatorIsNew(ids, At(v, "obj").value, At(RewriteComponent(ids, v), "obj").value)
  {
    ComponentAt(ids, v, "obj");
    hide RewriteComponent, At, OperatorIsNew;
    if At(v, "obj").Some? {
      OperatorIsRenamed(ids, At(v, "obj").value);
    }
  }

  lemma {:induction false} FixedAt(ids: set<string>, u: Value, key: string)
    requires u.Obj? && key != "downstream" && key != "upstream" && key != "parent_id"
    ensures FixComponent(ids, u).Obj?
    ensures At(FixComponent(ids, u), key) == if key == "obj" then Mapped(At(u, key), FixObj) else At(u, key)
  {
    var e1 := Update(u.entries, "obj", FixObj);
    var e2 := Update(e1, "downstream", d => MapIdList(ids, d));
    var e3 := Update(e2, "upstream", w => MapIdList(ids, w));
    LookupUpdate(u.entries, "obj", FixObj, key);
    LookupUpdate(e1, "downstream", d => MapIdList(ids, d), key);
    LookupUpdate(e2, "upstream", w => MapIdList(ids, w), key);
    LookupUpdate(e3, "parent_id", p => MapIdValue(ids, p), key);
    hide Update, Lookup, FixObj, MapIdList, MapIdValue;
  }

  // ----- nodes -----

  /** A node of the editor: type, label and name are new, the form has references rewritten, other data stays. */
  lemma {:induction false} NodeNames(ids: set<string>, v: Value, key: string)
    requires v.Obj?
    ensures var w := FixNode(ids, v);
            && w.Obj?
            && At(w, "type") == Mapped(At(v, "type"), NewTypeOf)
            && At(w, "data") == Mapped(At(v, "data"), d => FixData(ids, d))
            && (key != "id" && key != "parentId" && key != "type" && key != "data" ==> At(w, key) == At(v, key))
  {
    NodeAt(ids, v, "type");
    NodeAt(ids, v, "data");
    NodeAt(ids, v, key);
    var t := At(v, "type");
    if t.Some? && t.value.Str? {
      NamesAreNew(t.value.text);
    }
  }

  lemma {:induction false} NodeAt(ids: set<string>, v: Value, key: string)
    requires v.Obj?
    ensures FixNode(ids, v).Obj?
    ensures key != "id" && key != "parentId" ==>
              At(FixNode(ids, v), key) ==
                if key == "type" then Mapped(At(v, key), RenameTypeValue)
                else if key == "data" then Mapped(At(v, key), d => FixData(ids, d))
                else At(v, key)
  {
    var e1 := Update(v.entries, "id", i => MapIdValue(ids, i));
    var e2 := Update(e1, "parentId", p => MapIdValue(ids, p));
    var e3 := Update(e2, "type", RenameTypeValue);
    LookupUpdate(v.entries, "id", i => MapIdValue(ids, i), key);
    LookupUpdate(e1, "parentId", p => MapIdValue(ids, p), key);
    LookupUpdate(e2, "type", RenameTypeValue, key);
    LookupUpdate(e3, "data", d => FixData(ids, d), key);
    hide Update, Lookup, FixData, MapIdValue, RenameTypeValue;
  }

  lemma {:induction false} DataNames(ids: set<string>, v: Value, key: string)
    requires v.Obj?
    ensures var w := FixData(ids, v);
            && w.Obj?
            && At(w, key) ==
                 if key == "label" || key == "name" then Mapped(At(v, key), NewNameOf)
                 else if key == "form" then Mapped(At(v, key), f => RewriteValue(ids, f))
                 else At(v, key)
  {
    var e1 := Update(v.entries, "label", RenameNameValue);
    var e2 := Update(e1, "name", RenameNameValue);
    LookupUpdate(v.entries, "label", RenameNameValue, key);
    LookupUpdate(e1, "name", RenameNameValue, key);
    LookupUpdate(e2, "form", f => RewriteValue(ids, f), key);
    hide Update, Lookup, RewriteValue, RenameName;
    var t := At(v, key);
    if t.Some? && t.value.Str? {
      NamesAreNew(t.value.text);
    }
  }

  // ----- main results -----

  /** The name of a component's operator. */
  function OperatorName(component: Value): Option<Value> {
    match At(component, "obj") case None => None case Some(o) => At(o, "component_name")
  }

  predicate IsLegacy(v: Option<Value>) {
    v.Some? && v.value.Str? && IsLegacyName(v.value.text)
  }

  /** The components of a document. */
  function ComponentsOf(dsl: Value): Option<Value> {
    At(dsl, "components")
  }

  /**
   In the migrated document every component comes from one of the original, with its new id; the name
   of its operator is the original's under the three pairs, no legacy name is left, and its parameters
   and other fields only have references rewritten.
   */
  lemma {:induction false} NoLegacyNames(dsl: Value, components: Entries)
    requires ComponentsOf(dsl) == Some(Obj(components)) && Normalize(dsl).Some?
    ensures var after := ComponentsOf(Normalize(dsl).value);
            && after.Some? && after.value.Obj?
            && forall e :: e in after.value.entries ==>
                 && !IsLegacy(OperatorName(e.1))
                 && exists c :: c in components && e.0 == RenameId(c.0) && ComponentImage(KeySet(components), c.1, e.1)
  {
    var ids := KeySet(components);
    MigratedAt(dsl.entries, components, "components");
    RewrittenEntries(ids, components);
    hide RewriteComponents, RewriteComponent, RenameId, MigrateWith, Lookup;
    forall e | e in RewriteComponents(ids, components)
      ensures !IsLegacy(OperatorName(e.1))
      ensures exists c :: c in components && e.0 == RenameId(c.0) && ComponentImage(ids, c.1, e.1)
    {
      var c :| c in components && e == (RenameId(c.0), RewriteComponent(ids, c.1));
      ComponentIsImage(ids, c.1);
      NameIsNew(ids, c.1);
    }
  }

  /**
   A node and its image: new type, new label and name, references rewritten in the form, nothing
   else but ids changed.
   */
  ghost predicate NodeIsNew(ids: set<string>, before: Value, after: Value) {
    && (!before.Obj? ==> after == before)
    && (before.Obj? ==>
          && after.Obj?
          && At(after, "type") == Mapped(At(before, "type"), NewTypeOf)
          && (At(before, "data").None? <==> At(after, "data").None?)
          && (At(before, "data").Some? ==> DataIsNew(ids, At(before, "data").value, At(after, "data").value))
          && forall key :: key !in ["id", "parentId", "type", "data"] ==> At(after, key) == At(before, key))
  }

  ghost predicate DataIsNew(ids: set<string>, before: Value, after: Value) {
    && (!before.Obj? ==> after == before)
    && (before.Obj? ==>
          && after.Obj?
          && At(after, "label") == Mapped(At(before, "label"), NewNameOf)
          && At(after, "name") == Mapped(At(before, "name"), NewNameOf)
          && At(after, "form") == Mapped(At(before, "form"), f => RewriteValue(ids, f))
          && forall key :: key !in ["label", "name", "form"] ==> At(after, key) == At(before, key))
  }

  /** In the migrated document every node of the editor has its new type, label and name. */
  lemma {:induction false} NodesAreRenamed(dsl: Value, components: Entries, graph: Value, nodes: seq<Value>)
    requires ComponentsOf(dsl) == Some(Obj(components)) && Normalize(dsl).Some?
    requires At(dsl, "graph") == Some(graph) && At(graph, "nodes") == Some(Arr(nodes))
    ensures var after: Option<Value> := At(Normalize(dsl).value, "graph");
            && after.Some?
            && var nodes': Option<Value> := At(after.value, "nodes");
               && nodes'.Some? && nodes'.value.Arr? && |nodes'.value.items| == |nodes|
               && forall i :: 0 <= i < |nodes| ==> NodeIsNew(KeySet(components), nodes[i], nodes'.value.items[i])
  {
    var ids, order := KeySet(components), SortByLength(KeySeq(components));
    MigratedAt(dsl.entries, components, "graph");
    GraphNodes(ids, order, graph);
    hide RewriteComponents, MigrateWith, Lookup, FixGraph, NodeIsNew, FixNode;
    forall i | 0 <= i < |nodes| ensures NodeIsNew(ids, nodes[i], FixNode(ids, nodes[i])) {
      NodeIsRenamed(ids, nodes[i]);
    }
  }

  lemma {:induction false} GraphNodes(ids: set<string>, order: seq<string>, graph: Value)
    requires graph.Obj?
    ensures At(FixGraph(ids, order, graph), "nodes") == Mapped(At(graph, "nodes"), ns => FixNodes(ids, ns))
    ensures At(FixGraph(ids, order, graph), "edges") == Mapped(At(graph, "edges"), es => FixEdges(ids, order, es))
  {
    var e1 := Update(graph.entries, "nodes", ns => FixNodes(ids, ns));
    LookupUpdate(graph.entries, "nodes", ns => FixNodes(ids, ns), "nodes");
    LookupUpdate(e1, "edges", es => FixEdges(ids, order, es), "nodes");
    LookupUpdate(graph.entries, "nodes", ns => FixNodes(ids, ns), "edges");
    LookupUpdate(e1, "edges", es => FixEdges(ids, order, es), "edges");
    hide Update, Lookup, FixNodes, FixEdges;
  }

  lemma {:induction false} NodeIsRenamed(ids: set<string>, v: Value)
    ensures NodeIsNew(ids, v, FixNode(ids, v))
  {
    hide Lookup, FixData, At, Mapped;
    if v.Obj? {
      hide FixNode;
      NodeNames(ids, v, "type");
      forall key | key !in ["id", "parentId", "type", "data"] ensures At(FixNode(ids, v), key) == At(v, key) {
        NodeNames(ids, v, key);
      }
      NodeDataIsRenamed(ids, v);
    }
  }

  lemma {:induction false} NodeDataIsRenamed(ids: set<string>, v: Value)
    requires v.Obj?
    ensures FixNode(ids, v).Obj?
    ensures At(v, "data").None? <==> At(FixNode(ids, v), "data").None?
    ensures At(v, "data").Some? ==> DataIsNew(ids, At(v, "data").value, At(FixNode(ids, v), "data").value)
  {
    NodeNames(ids, v, "type");
    hide FixNode, At, DataIsNew;
    if At(v, "data").Some? {
      DataIsRenamed(ids, At(v, "data").value);
    }
  }

  lemma {:induction false} DataIsRenamed(ids: set<string>, v: Value)
    ensures DataIsNew(ids, v, FixData(ids, v))
  {
    if v.Obj? {
      hide FixData, At, Mapped;
      DataNames(ids, v, "label");
      DataNames(ids, v, "name");
      DataNames(ids, v, "form");
      forall key | key !in ["label", "name", "form"] ensures At(FixData(ids, v), key) == At(v, key) {
        DataNames(ids, v, key);
      }
    }
  }

  lemma {:induction false} NameIsNew(ids: set<string>, v: Value)
    ensures !IsLegacy(OperatorName(RewriteComponent(ids, v)))
  {
    hide RewriteComponent, FixObj, Lookup, RewriteValue;
    if v.Obj? {
      ComponentAt(ids, v, "obj");
      var o := At(v, "obj");
      if o.Some? && o.value.Obj? {
        OperatorImage(ids, o.value, "component_name");
      } else if o.Some? {
        NonDictOperator(ids, o.value);
      }
    } else {
      NonDictComponent(ids, v);
    }
  }

  lemma {:induction false} NonDictOperator(ids: set<string>, v: Value)
    requires !v.Obj?
    ensures !FixObj(RewriteValue(ids, v)).Obj? && FixObj(RewriteValue(ids, v)) == RewriteValue(ids, v)
  {
  }

  lemma {:induction false} NonDictComponent(ids: set<string>, v: Value)
    requires !v.Obj?
    ensures !RewriteComponent(ids, v).Obj?
  {
  }

  // ----- edge ids -----

  ghost predicate Falling(ids: seq<string>) {
    forall i, j :: 0 <= i < j < |ids| ==> |ids[i]| >= |ids[j]|
  }

  /** The ids of one length, in order. */
  function OfLength(ids: seq<string>, n: nat): seq<string> {
    if ids == [] then [] else (if |ids[0]| == n then [ids[0]] else []) + OfLength(ids[1..], n)
  }

  lemma {:induction false} OfLengthSnoc(ids: seq<string>, id: string, n: nat)
    ensures OfLength(ids + [id], n) == OfLength(ids, n) + if |id| == n then [id] else []
  {
    if ids == [] {
      assert (ids + [id])[1..] == [];
    } else {
      assert (ids + [id])[1..] == ids[1..] + [id];
      OfLengthSnoc(ids[1..], id, n);
    }
  }

  lemma {:induction false} NoneAsLong(ids: seq<string>, n: nat)
    requires Falling(ids) && (ids == [] || |ids[0]| < n)
    ensures OfLength(ids, n) == []
  {
    if ids != [] {
      assert Falling(ids[1..]);
      NoneAsLong(ids[1..], n);
    }
  }

  lemma {:induction false} InsertKeepsOrder(ids: seq<string>, id: string, n: nat)
    requires Falling(ids)
    ensures OfLength(InsertByLength(ids, id), n) == OfLength(ids, n) + if |id| == n then [id] else []
  {
    if ids == [] || |ids[0]| < |id| {
      NoneAsLong(ids, |id|);
      assert ([id] + ids)[1..] == ids;
    } else {
      assert Falling(ids[1..]);
      InsertKeepsOrder(ids[1..], id, n);
      assert InsertByLength(ids, id)[1..] == InsertByLength(ids[1..], id);
    }
  }

  /** Ids of the same length keep their order. */
  lemma {:induction false} SortIsStable(ids: seq<string>, n: nat)
    ensures OfLength(SortByLength(ids), n) == OfLength(ids, n)
  {
    if ids != [] {
      var init, last := ids[..|ids| - 1], ids[|ids| - 1];
      SortIsStable(init, n);
      SortIsSorted(init);
      assert SortByLength(ids) == InsertByLength(SortByLength(init), last);
      hide Falling, OfLength, InsertByLength, SortByLength;
      InsertKeepsOrder(SortByLength(init), last, n);
      OfLengthSnoc(init, last, n);
      assert ids == init + [last];
    }
  }

  /** The ids are replaced longest first. */
  lemma {:induction false} SortIsSorted(ids: seq<string>)
    ensures multiset(SortByLength(ids)) == multiset(ids) && Falling(SortByLength(ids))
  {
    if ids != [] {
      var n := |ids| - 1;
      var init, last := ids[..n], ids[n];
      assert SortByLength(ids) == InsertByLength(SortByLength(init), last);
      hide Falling, InsertByLength, SortByLength;
      SortIsSorted(init);
      InsertIsSorted(SortByLength(init), last);
      assert ids == init + [last];
    }
  }

  lemma {:induction false} InsertIsSorted(ids: seq<string>, id: string)
    requires Falling(ids)
    ensures Falling(InsertByLength(ids, id)) && multiset(InsertByLength(ids, id)) == multiset(ids) + multiset{id}
  {
    if ids == [] || |ids[0]| < |id| {
      assert Falling([id] + ids);
      assert multiset([id] + ids) == multiset{id} + multiset(ids);
    } else {
      var first, rest := ids[0], InsertByLength(ids[1..], id);
      assert ids == [first] + ids[1..] && Falling(ids[1..]);
      InsertIsSorted(ids[1..], id);
      forall x | x in rest ensures |first| >= |x| {
        assert x in multiset(rest);
        assert x == id || x in ids[1..];
      }
      hide InsertByLength;
      LongestFirst(first, rest);
    }
  }

  lemma {:induction false} LongestFirst(first: string, rest: seq<string>)
    requires Falling(rest) && forall x :: x in rest ==> |first| >= |x|
    ensures Falling([first] + rest) && multiset([first] + rest) == multiset{first} + multiset(rest)
  {
    var r := [first] + rest;
    forall i, j | 0 <= i < j < |r| ensures |r[i]| >= |r[j]| {
      assert r[j] == rest[j - 1] && rest[j - 1] in rest;
    }
  }

  lemma {:induction false} ReplaceUnfolds(s: string, part: string, sub: string)
    requires part != "" && s != ""
    ensures ReplaceAll(s, part, sub) ==
              if OccursAt(s, part, 0) then sub + ReplaceAll(s[|part|..], part, sub)
              else [s[0]] + ReplaceAll(s[1..], part, sub)
  {
    assert OccursAt(s, part, 0) <==> part <= s;
  }

  lemma {:induction false} OccursLater(s: string, part: string, i: nat)
    requires s != ""
    ensures OccursAt(s[1..], part, i) <==> OccursAt(s, part, i + 1)
  {
    if i + |part| < |s| {
      assert s[1..][i..i + |part|] == s[i + 1..i + 1 + |part|];
    }
  }

  ghost predicate FirstOccursAt(s: string, part: string, n: nat) {
    OccursAt(s, part, n) && forall i :: 0 <= i < n ==> !OccursAt(s, part, i)
  }

  /** The first occurrence is replaced, and then those in the rest. */
  lemma {:induction false} ReplaceFirst(a: string, part: string, b: string, sub: string)
    requires part != "" && FirstOccursAt(a + (part + b), part, |a|)
    ensures ReplaceAll(a + (part + b), part, sub) == a + (sub + ReplaceAll(b, part, sub))
  {
    hide ReplaceAll, FirstOccursAt;
    if a != "" {
      StepsOver(a, part, b, sub);
      ReplaceFirst(a[1..], part, b, sub);
      hide *;
      Tail(a, sub + ReplaceAll(b, part, sub));
    } else {
      StartsHere(part, b, sub);
      assert "" + (sub + ReplaceAll(b, part, sub)) == sub + ReplaceAll(b, part, sub);
    }
  }

  lemma {:induction false} StepsOver(a: string, part: string, b: string, sub: string)
    requires part != "" && a != "" && FirstOccursAt(a + (part + b), part, |a|)
    ensures FirstOccursAt(a[1..] + (part + b), part, |a[1..]|)
    ensures ReplaceAll(a + (part + b), part, sub) == [a[0]] + ReplaceAll(a[1..] + (part + b), part, sub)
  {
    hide ReplaceAll, OccursAt, FirstOccursAt;
    var s := a + (part + b);
    FirstPlace(s, part, |a|);
    ReplaceUnfolds(s, part, sub);
    Tail(a, part + b);
  }

  lemma {:induction false} StartsHere(part: string, b: string, sub: string)
    requires part != "" && FirstOccursAt("" + (part + b), part, 0)
    ensures ReplaceAll("" + (part + b), part, sub) == sub + ReplaceAll(b, part, sub)
  {
    hide ReplaceAll, OccursAt, FirstOccursAt;
    var s := "" + (part + b);
    FirstPlace(s, part, 0);
    ReplaceUnfolds(s, part, sub);
    NoHead(part, b);
  }

  lemma {:induction false} Tail(a: string, t: string)
    requires a != ""
    ensures (a + t)[1..] == a[1..] + t && (a + t)[0] == a[0] && [a[0]] + (a[1..] + t) == a + t
  {
  }

  lemma {:induction false} NoHead(part: string, b: string)
    ensures "" + (part + b) == part + b && (part + b)[|part|..] == b
  {
  }

  lemma {:induction false} FirstPlace(s: string, part: string, n: nat)
    requires part != "" && FirstOccursAt(s, part, n)
    ensures s != "" && (OccursAt(s, part, 0) <==> n == 0)
    ensures n > 0 ==> FirstOccursAt(s[1..], part, n - 1)
  {
    if n > 0 {
      OccursLater(s, part, n - 1);
      forall i | 0 <= i < n - 1 ensures !OccursAt(s[1..], part, i) {
        OccursLater(s, part, i);
      }
    }
  }

  lemma {:induction false} ReplaceNone(s: string, part: string, sub: string)
    requires part != "" && !Contains(s, part)
    ensures ReplaceAll(s, part, sub) == s
  {
    if s != "" {
      ReplaceNone(s[1..], part, sub);
      assert [s[0]] + s[1..] == s;
    }
  }
}
