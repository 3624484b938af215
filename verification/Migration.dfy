/**
 The DSL migration (agent/dsl_migration.py, `normalize_chunker_dsl`): legacy chunker components get
 new names and ids, wherever a canvas refers to them.
 */
module Migration {
  import opened Wrappers
  import opened Dicts
  import opened Json
  import opened Text
  import opened RefScan

  // ----- the renaming rules -----

  const COMPONENT_RENAMES: Dict<string> :=
    [("Splitter", "TokenChunker"), ("HierarchicalMerger", "TitleChunker"), ("PDFGenerator", "DocGenerator")]

  const NODE_TYPE_RENAMES: Dict<string> := [("splitterNode", "chunkerNode")]

  /** `renames.get(name, name)` */
  function GetOrSame(renames: Dict<string>, name: string): string {
    match Lookup(renames, name) case None => name case Some(new') => new'
  }

  function RenameName(name: string): string {
    GetOrSame(COMPONENT_RENAMES, name)
  }

  function RenameType(name: string): string {
    GetOrSame(NODE_TYPE_RENAMES, name)
  }

  /** The first rename whose old name stands before the id's colon. */
  function RenamePrefix(renames: Dict<string>, id: string): string {
    if renames == [] then id
    else if renames[0].0 + ":" <= id then renames[0].1 + ":" + id[|renames[0].0| + 1..]
    else RenamePrefix(renames[1..], id)
  }

  /** The new id of a component: a legacy operator name before the colon is replaced. */
  function RenameId(id: string): string {
    RenamePrefix(COMPONENT_RENAMES, id)
  }

  /** The renames, spelled out. */
  lemma {:induction false} RenameCases(id: string)
    ensures RenameId(id) ==
              if "Splitter:" <= id then "TokenChunker:" + id[9..]
              else if "HierarchicalMerger:" <= id then "TitleChunker:" + id[19..]
              else if "PDFGenerator:" <= id then "DocGenerator:" + id[13..]
              else id
  {
    var t1, t2 := COMPONENT_RENAMES[1..], COMPONENT_RENAMES[2..];
    assert t1 == [("HierarchicalMerger", "TitleChunker"), ("PDFGenerator", "DocGenerator")];
    assert t1[1..] == t2 == [("PDFGenerator", "DocGenerator")] && t2[1..] == [];
    assert "Splitter" + ":" == "Splitter:" && "HierarchicalMerger" + ":" == "HierarchicalMerger:";
    assert "PDFGenerator" + ":" == "PDFGenerator:";
    assert "TokenChunker" + ":" == "TokenChunker:" && "TitleChunker" + ":" == "TitleChunker:";
    assert "DocGenerator" + ":" == "DocGenerator:";
    assert RenamePrefix(t2, id) == if "PDFGenerator:" <= id then "DocGenerator:" + id[13..] else id;
    assert RenamePrefix(t1, id)
        == if "HierarchicalMerger:" <= id then "TitleChunker:" + id[19..] else RenamePrefix(t2, id);
  }

  /** `component_id_map.get(id, id)` */
  function MapId(ids: set<string>, id: string): string {
    if id in ids then RenameId(id) else id
  }

  /** No new name is an old one. */
  lemma {:induction false} GetTwice(renames: Dict<string>, name: string)
    requires forall e :: e in renames ==> Lookup(renames, e.1).None?
    ensures GetOrSame(renames, GetOrSame(renames, name)) == GetOrSame(renames, name)
  {
    LookupFindsEntry(renames, name);
    hide Lookup;
  }

  lemma {:induction false} RenameNameTwice(name: string)
    ensures RenameName(RenameName(name)) == RenameName(name)
  {
    forall e | e in COMPONENT_RENAMES ensures Lookup(COMPONENT_RENAMES, e.1).None? {
      LookupFindsEntry(COMPONENT_RENAMES, e.1);
      assert e.1[0] == 'T' || e.1[0] == 'D';
    }
    GetTwice(COMPONENT_RENAMES, name);
  }

  lemma {:induction false} RenameTypeTwice(name: string)
    ensures RenameType(RenameType(name)) == RenameType(name)
  {
    forall e | e in NODE_TYPE_RENAMES ensures Lookup(NODE_TYPE_RENAMES, e.1).None? {
      LookupFindsEntry(NODE_TYPE_RENAMES, e.1);
      assert e.1[0] == 'c';
    }
    GetTwice(NODE_TYPE_RENAMES, name);
  }

  /** A new id carries no legacy prefix. */
  lemma {:induction false} RenameIdTwice(id: string)
    ensures RenameId(RenameId(id)) == RenameId(id)
  {
    var r := RenameId(id);
    RenameCases(id);
    RenameCases(r);
    hide RenameId;
    if r != id {
      assert r[0] == 'T' || r[0] == 'D';
    }
  }

  lemma {:induction false} MapIdTwice(ids: set<string>, id: string)
    ensures MapId(ids, MapId(ids, id)) == MapId(ids, id)
  {
    RenameIdTwice(id);
  }

  // ----- rewriting values -----

  function RewriteText(ids: set<string>, text: string): string {
    if text in ids then RenameId(text) else RewriteRefs(text, id => MapId(ids, id))
  }

  /** `rewrite_value` */
  function RewriteValue(ids: set<string>, v: Value): Value {
    match v
    case Str(text) => Str(RewriteText(ids, text))
    case Arr(items) => Arr(seq(|items|, i requires 0 <= i < |items| => RewriteValue(ids, items[i])))
    case Obj(entries) =>
      Obj(seq(|entries|, i requires 0 <= i < |entries| => (entries[i].0, RewriteValue(ids, entries[i].1))))
    case _ => v
  }

  function MapIdValue(ids: set<string>, v: Value): Value {
    if v.Str? then Str(MapId(ids, v.text)) else v
  }

  /** A list of ids; anything but a list stays. */
  function MapIdList(ids: set<string>, v: Value): Value {
    if v.Arr? then Arr(seq(|v.items|, i requires 0 <= i < |v.items| => MapIdValue(ids, v.items[i]))) else v
  }

  /** Replaces the value under a key that is present. */
  function Update(entries: Entries, key: string, f: Value -> Value): Entries {
    match Lookup(entries, key) case None => entries case Some(v) => Put(entries, key, f(v))
  }

  // ----- components -----

  function RenameNameValue(v: Value): Value {
    if v.Str? then Str(RenameName(v.text)) else v
  }

  /** The component name is set even where it was absent. */
  function FixObj(v: Value): Value {
    if !v.Obj? then v
    else
      var name := match Lookup(v.entries, "component_name") case None => Null case Some(n) => n;
      Obj(Put(v.entries, "component_name", RenameNameValue(name)))
  }

  function FixComponent(ids: set<string>, v: Value): Value {
    if !v.Obj? then v
    else
      var e1 := Update(v.entries, "obj", FixObj);
      var e2 := Update(e1, "downstream", d => MapIdList(ids, d));
      var e3 := Update(e2, "upstream", u => MapIdList(ids, u));
      Obj(Update(e3, "parent_id", p => MapIdValue(ids, p)))
  }

  function RewriteComponent(ids: set<string>, v: Value): Value {
    FixComponent(ids, RewriteValue(ids, v))
  }

  /** The dict of rewritten components; a later component takes the place of an earlier one with the same new id. */
  function RewriteComponents(ids: set<string>, components: Entries): Entries {
    if components == [] then []
    else
      var n := |components| - 1;
      Put(RewriteComponents(ids, components[..n]), RenameId(components[n].0), RewriteComponent(ids, components[n].1))
  }

  // ----- the graph of the editor -----

  function FixData(ids: set<string>, v: Value): Value {
    if !v.Obj? then v
    else
      var e1 := Update(v.entries, "label", RenameNameValue);
      var e2 := Update(e1, "name", RenameNameValue);
      Obj(Update(e2, "form", f => RewriteValue(ids, f)))
  }

  function FixNode(ids: set<string>, v: Value): Value {
    if !v.Obj? then v
    else
      var e1 := Update(v.entries, "id", i => MapIdValue(ids, i));
      var e2 := Update(e1, "parentId", p => MapIdValue(ids, p));
      var e3 := Update(e2, "type", RenameTypeValue);
      Obj(Update(e3, "data", d => FixData(ids, d)))
  }

  function RenameTypeValue(v: Value): Value {
    if v.Str? then Str(RenameType(v.text)) else v
  }

  /** `s.replace(part, sub)` */
  function ReplaceAll(s: string, part: string, sub: string): string
    decreases |s|
  {
    if part == "" then Interleave(s, sub)
    else if s == [] then []
    else if part <= s then sub + ReplaceAll(s[|part|..], part, sub)
    else [s[0]] + ReplaceAll(s[1..], part, sub)
  }

  function Interleave(s: string, sub: string): string {
    if s == [] then sub else sub + [s[0]] + Interleave(s[1..], sub)
  }

  /** Stable insertion by falling length. */
  function InsertByLength(ids: seq<string>, id: string): seq<string> {
    if ids == [] || |ids[0]| < |id| then [id] + ids else [ids[0]] + InsertByLength(ids[1..], id)
  }

  function SortByLength(ids: seq<string>): seq<string> {
    if ids == [] then [] else InsertByLength(SortByLength(ids[..|ids| - 1]), ids[|ids| - 1])
  }

  function ReplaceIds(s: string, ids: seq<string>): string
    decreases |ids|
  {
    if ids == [] then s else ReplaceIds(ReplaceAll(s, ids[0], RenameId(ids[0])), ids[1..])
  }

  function FixEdgeId(order: seq<string>, v: Value): Value {
    if v.Str? then Str(ReplaceIds(v.text, order)) else v
  }

  function FixEdge(ids: set<string>, order: seq<string>, v: Value): Value {
    if !v.Obj? then v
    else
      var e1 := Update(v.entries, "source", s => MapIdValue(ids, s));
      var e2 := Update(e1, "target", t => MapIdValue(ids, t));
      Obj(Update(e2, "id", i => FixEdgeId(order, i)))
  }

  function MapItems(v: Value, f: Value -> Value): Value {
    if v.Arr? then Arr(seq(|v.items|, i requires 0 <= i < |v.items| => f(v.items[i]))) else v
  }

  function FixNodes(ids: set<string>, v: Value): Value {
    MapItems(v, n => FixNode(ids, n))
  }

  function FixEdges(ids: set<string>, order: seq<string>, v: Value): Value {
    MapItems(v, e => FixEdge(ids, order, e))
  }

  function FixGraph(ids: set<string>, order: seq<string>, v: Value): Value {
    if !v.Obj? then v
    else
      var e1 := Update(v.entries, "nodes", ns => FixNodes(ids, ns));
      Obj(Update(e1, "edges", es => FixEdges(ids, order, es)))
  }

  // ----- the whole document -----

  function KeySeq(entries: Entries): seq<string> {
    seq(|entries|, i requires 0 <= i < |entries| => entries[i].0)
  }

  function KeySet(entries: Entries): set<string> {
    set e | e in entries :: e.0
  }

  function MigrateWith(entries: Entries, components: Entries): Entries {
    var ids, order := KeySet(components), SortByLength(KeySeq(components));
    var e1 := Put(entries, "components", Obj(RewriteComponents(ids, components)));
    var e2 := Update(e1, "path", p => MapIdList(ids, p));
    var e3 := Update(e2, "graph", g => FixGraph(ids, order, g));
    var e4 := Update(e3, "history", h => RewriteValue(ids, h));
    var e5 := Update(e4, "messages", m => RewriteValue(ids, m));
    Update(e5, "reference", r => RewriteValue(ids, r))
  }

  function Migrate(dsl: Value): Value {
    if !dsl.Obj? then dsl
    else
      var components: Option<Value> := Lookup(dsl.entries, "components");
      if components.Some? && components.value.Obj? then Obj(MigrateWith(dsl.entries, components.value.entries)) else dsl
  }

  // ----- raising -----

  /** Lists and dicts cannot be looked up as ids. */
  predicate IsUnhashable(v: Value) {
    v.Arr? || v.Obj?
  }

  predicate ListRaises(v: Option<Value>) {
    v.Some? && v.value.Arr? && exists item :: item in v.value.items && IsUnhashable(item)
  }

  predicate ComponentRaises(v: Value) {
    v.Obj? &&
    var obj: Option<Value> := Lookup(v.entries, "obj");
    || (obj.Some? && obj.value.Obj? && var name: Option<Value> := Lookup(obj.value.entries, "component_name");
          name.Some? && IsUnhashable(name.value))
    || ListRaises(Lookup(v.entries, "downstream"))
    || ListRaises(Lookup(v.entries, "upstream"))
  }

  predicate MigrationRaises(dsl: Value) {
    dsl.Obj? &&
    var components: Option<Value> := Lookup(dsl.entries, "components");
    && components.Some? && components.value.Obj?
    && ((exists e :: e in components.value.entries && ComponentRaises(e.1)) || ListRaises(Lookup(dsl.entries, "path")))
  }

  /** The migration; no result when it raises a TypeError. */
  function Normalize(dsl: Value): Option<Value> {
    if MigrationRaises(dsl) then None else Some(Migrate(dsl))
  }

  // ----- lemmas about updates -----

  lemma {:induction false} LookupUpdate(entries: Entries, key: string, f: Value -> Value, other: string)
    ensures Lookup(Update(entries, key, f), other) ==
              if other == key && Lookup(entries, key).Some? then Some(f(Lookup(entries, key).value))
              else Lookup(entries, other)
  {
    if Lookup(entries, key).Some? {
      LookupPut(entries, key, f(Lookup(entries, key).value), other);
    }
  }

  lemma {:induction false} UpdateFixed(entries: Entries, key: string, f: Value -> Value)
    requires Lookup(entries, key).Some? ==> f(Lookup(entries, key).value) == Lookup(entries, key).value
    ensures Update(entries, key, f) == entries
  {
    if Lookup(entries, key).Some? {
      PutSame(entries, key);
    }
  }

  // ----- a second pass renames nothing -----

  /** None of the ids has a legacy prefix any more. */
  ghost predicate IsCurrent(ids: set<string>) {
    forall id :: id in ids ==> RenameId(id) == id
  }

  lemma {:induction false} CurrentText(ids: set<string>, text: string)
    requires IsCurrent(ids)
    ensures RewriteText(ids, text) == text
  {
    RewriteWithIdentity(text, id => MapId(ids, id));
  }

  lemma {:induction false} CurrentValue(ids: set<string>, v: Value)
    requires IsCurrent(ids)
    ensures RewriteValue(ids, v) == v
  {
    match v {
      case Str(text) => CurrentText(ids, text);
      case Arr(items) =>
        forall i | 0 <= i < |items| ensures RewriteValue(ids, items[i]) == items[i] {
          CurrentValue(ids, items[i]);
        }
        assert RewriteValue(ids, v).items == items;
      case Obj(entries) =>
        forall i | 0 <= i < |entries| ensures RewriteValue(ids, entries[i].1) == entries[i].1 {
          CurrentValue(ids, entries[i].1);
        }
        assert RewriteValue(ids, v).entries == entries;
      case _ =>
    }
  }

  lemma {:induction false} CurrentList(ids: set<string>, v: Value)
    requires IsCurrent(ids)
    ensures MapIdList(ids, v) == v && MapIdValue(ids, v) == v
  {
    if v.Arr? {
      assert MapIdList(ids, v).items == v.items;
    }
  }

  lemma {:induction false} FixObjTwice(v: Value)
    ensures FixObj(FixObj(v)) == FixObj(v)
  {
    if v.Obj? {
      var name := match Lookup(v.entries, "component_name") case None => Null case Some(n) => n;
      var entries := Put(v.entries, "component_name", RenameNameValue(name));
      LookupPut(v.entries, "component_name", RenameNameValue(name), "component_name");
      PutSame(entries, "component_name");
      if name.Str? {
        RenameNameTwice(name.text);
      }
      hide Put, Lookup, RenameName;
    }
  }

  /** What a chain of four updates leaves under each key. */
  lemma {:induction false} ComponentAfter(ids: set<string>, entries: Entries, key: string)
    ensures FixComponent(ids, Obj(entries)).Obj?
    ensures var before: Option<Value> := Lookup(entries, key);
            var after: Option<Value> := Lookup(FixComponent(ids, Obj(entries)).entries, key);
            && (before.None? <==> after.None?)
            && (before.Some? && key == "obj" ==> after.value == FixObj(before.value))
            && (before.Some? && (key == "downstream" || key == "upstream") ==>
                  after.value == MapIdList(ids, before.value))
            && (before.Some? && key == "parent_id" ==> after.value == MapIdValue(ids, before.value))
  {
    hide FixObj, MapIdList, MapIdValue, Update;
    var e1 := Update(entries, "obj", FixObj);
    var e2 := Update(e1, "downstream", d => MapIdList(ids, d));
    var e3 := Update(e2, "upstream", u => MapIdList(ids, u));
    LookupUpdate(entries, "obj", FixObj, key);
    LookupUpdate(e1, "downstream", d => MapIdList(ids, d), key);
    LookupUpdate(e2, "upstream", u => MapIdList(ids, u), key);
    LookupUpdate(e3, "parent_id", p => MapIdValue(ids, p), key);
  }

  lemma {:induction false} ComponentTwice(ids: set<string>, current: set<string>, v: Value)
    requires IsCurrent(current)
    ensures RewriteComponent(current, FixComponent(ids, v)) == FixComponent(ids, v)
  {
    var w := FixComponent(ids, v);
    CurrentValue(current, w);
    if v.Obj? {
      ComponentAfter(ids, v.entries, "obj");
      if Lookup(v.entries, "obj").Some? {
        FixObjTwice(Lookup(v.entries, "obj").value);
      }
      assert Lookup(w.entries, "obj").Some? ==>
          FixObj(Lookup(w.entries, "obj").value) == Lookup(w.entries, "obj").value;
      hide FixComponent, FixObj, Lookup, IsCurrent;
      UpdateFixed(w.entries, "obj", FixObj);
      forall x ensures MapIdList(current, x) == x && MapIdValue(current, x) == x {
        CurrentList(current, x);
      }
      UpdateFixed(w.entries, "downstream", d => MapIdList(current, d));
      UpdateFixed(w.entries, "upstream", u => MapIdList(current, u));
      UpdateFixed(w.entries, "parent_id", p => MapIdValue(current, p));
      FixedComponent(current, w);
    }
  }

  lemma {:induction false} FixedComponent(ids: set<string>, w: Value)
    requires w.Obj?
    requires Update(w.entries, "obj", FixObj) == w.entries
    requires Update(w.entries, "downstream", d => MapIdList(ids, d)) == w.entries
    requires Update(w.entries, "upstream", u => MapIdList(ids, u)) == w.entries
    requires Update(w.entries, "parent_id", p => MapIdValue(ids, p)) == w.entries
    ensures FixComponent(ids, w) == w
  {
    hide Update;
  }

  /** The keys of the rewritten dict are new ids, its values are rewritten components. */
  lemma {:induction false} RewrittenEntries(ids: set<string>, components: Entries)
    ensures UniqueKeys(RewriteComponents(ids, components))
    ensures forall e :: e in RewriteComponents(ids, components) ==>
              exists c :: c in components && e == (RenameId(c.0), RewriteComponent(ids, c.1))
  {
    if components != [] {
      var n := |components| - 1;
      var init, c := components[..n], components[n];
      RewrittenEntries(ids, init);
      hide RenameId, RewriteComponent;
      var earlier := RewriteComponents(ids, init);
      PutKeepsUnique(earlier, RenameId(c.0), RewriteComponent(ids, c.1));
      forall e | e in RewriteComponents(ids, components)
        ensures exists d :: d in components && e == (RenameId(d.0), RewriteComponent(ids, d.1))
      {
        PutEntries(earlier, RenameId(c.0), RewriteComponent(ids, c.1), e);
        if e != (RenameId(c.0), RewriteComponent(ids, c.1)) {
          var d :| d in init && e == (RenameId(d.0), RewriteComponent(ids, d.1));
          assert d in components;
        }
      }
    }
  }

  lemma {:induction false} RewrittenIsCurrent(ids: set<string>, components: Entries)
    ensures IsCurrent(KeySet(RewriteComponents(ids, components)))
  {
    RewrittenEntries(ids, components);
    hide RewriteComponents, RewriteComponent, RenameId;
    forall id | id in KeySet(RewriteComponents(ids, components)) ensures RenameId(id) == id {
      var e :| e in RewriteComponents(ids, components) && e.0 == id;
      var c :| c in components && e == (RenameId(c.0), RewriteComponent(ids, c.1));
      RenameIdTwice(c.0);
    }
  }

  /** Rebuilding a dict of settled components gives it back, entry by entry. */
  lemma {:induction false} RebuildSettled(ids: set<string>, components: Entries)
    requires UniqueKeys(components)
    requires forall e :: e in components ==> RenameId(e.0) == e.0 && RewriteComponent(ids, e.1) == e.1
    ensures RewriteComponents(ids, components) == components
  {
    hide RenameId, RewriteComponent;
    if components != [] {
      var n := |components| - 1;
      var init, c := components[..n], components[n];
      RebuildSettled(ids, init);
      LookupFindsEntry(init, c.0);
      PutKeys(init, c.0, c.1);
      hide Put, Lookup;
      assert components == init + [c];
      assert (c.0, c.1) == c;
    }
  }

  lemma {:induction false} ComponentsTwice(ids: set<string>, components: Entries)
    ensures var r := RewriteComponents(ids, components); RewriteComponents(KeySet(r), r) == r
  {
    var r := RewriteComponents(ids, components);
    RewrittenEntries(ids, components);
    RewrittenIsCurrent(ids, components);
    hide RewriteComponents, FixComponent;
    forall e | e in r ensures RenameId(e.0) == e.0 && RewriteComponent(KeySet(r), e.1) == e.1 {
      var c :| c in components && e == (RenameId(c.0), RewriteComponent(ids, c.1));
      RenameIdTwice(c.0);
      ComponentTwice(ids, KeySet(r), RewriteValue(ids, c.1));
    }
    RebuildSettled(KeySet(r), r);
  }

  // ----- the second pass over the graph -----

  lemma {:induction false} RenameValueTwice(v: Value)
    ensures RenameNameValue(RenameNameValue(v)) == RenameNameValue(v)
    ensures RenameTypeValue(RenameTypeValue(v)) == RenameTypeValue(v)
  {
    if v.Str? {
      RenameNameTwice(v.text);
      RenameTypeTwice(v.text);
    }
  }

  lemma {:induction false} DataTwice(ids: set<string>, current: set<string>, v: Value)
    requires IsCurrent(current)
    ensures FixData(current, FixData(ids, v)) == FixData(ids, v)
  {
    if v.Obj? {
      hide Update, RewriteValue, RenameNameValue, IsCurrent, Lookup;
      var e1 := Update(v.entries, "label", RenameNameValue);
      var e2 := Update(e1, "name", RenameNameValue);
      var e3 := Update(e2, "form", f => RewriteValue(ids, f));
      LookupUpdate(v.entries, "label", RenameNameValue, "label");
      LookupUpdate(e1, "name", RenameNameValue, "label");
      LookupUpdate(e2, "form", f => RewriteValue(ids, f), "label");
      LookupUpdate(e1, "name", RenameNameValue, "name");
      LookupUpdate(e2, "form", f => RewriteValue(ids, f), "name");
      forall x ensures RenameNameValue(RenameNameValue(x)) == RenameNameValue(x) && RewriteValue(current, x) == x {
        RenameValueTwice(x);
        CurrentValue(current, x);
      }
      UpdateFixed(e3, "label", RenameNameValue);
      UpdateFixed(e3, "name", RenameNameValue);
      UpdateFixed(e3, "form", f => RewriteValue(current, f));
    }
  }

  lemma {:induction false} NodeTwice(ids: set<string>, current: set<string>, v: Value)
    requires IsCurrent(current)
    ensures FixNode(current, FixNode(ids, v)) == FixNode(ids, v)
  {
    if v.Obj? {
      hide Update, MapIdValue, RenameTypeValue, FixData, IsCurrent, Lookup;
      var e1 := Update(v.entries, "id", i => MapIdValue(ids, i));
      var e2 := Update(e1, "parentId", p => MapIdValue(ids, p));
      var e3 := Update(e2, "type", RenameTypeValue);
      var e4 := Update(e3, "data", d => FixData(ids, d));
      LookupUpdate(e2, "type", RenameTypeValue, "type");
      LookupUpdate(e3, "data", d => FixData(ids, d), "type");
      LookupUpdate(e3, "data", d => FixData(ids, d), "data");
      forall x ensures MapIdValue(current, x) == x && RenameTypeValue(RenameTypeValue(x)) == RenameTypeValue(x) {
        CurrentList(current, x);
        RenameValueTwice(x);
      }
      forall x ensures FixData(current, FixData(ids, x)) == FixData(ids, x) {
        DataTwice(ids, current, x);
      }
      UpdateFixed(e4, "id", i => MapIdValue(current, i));
      UpdateFixed(e4, "parentId", p => MapIdValue(current, p));
      UpdateFixed(e4, "type", RenameTypeValue);
      UpdateFixed(e4, "data", d => FixData(current, d));
    }
  }

  lemma {:induction false} ReplaceSame(s: string, part: string)
    ensures ReplaceAll(s, part, part) == s
    decreases |s|
  {
    if part == "" {
      InterleaveNothing(s);
    } else if s != [] {
      if part <= s {
        ReplaceSame(s[|part|..], part);
        assert s == part + s[|part|..];
      } else {
        ReplaceSame(s[1..], part);
        assert s == [s[0]] + s[1..];
      }
    }
  }

  lemma {:induction false} InterleaveNothing(s: string)
    ensures Interleave(s, "") == s
  {
    if s != [] {
      InterleaveNothing(s[1..]);
    }
  }

  lemma {:induction false} ReplaceCurrent(s: string, order: seq<string>)
    requires forall id :: id in order ==> RenameId(id) == id
    ensures ReplaceIds(s, order) == s
    decreases |order|
  {
    if order != [] {
      ReplaceSame(s, order[0]);
      ReplaceCurrent(s, order[1..]);
    }
  }

  lemma {:induction false} CurrentEdge(current: set<string>, order: seq<string>, v: Value)
    requires IsCurrent(current) && forall id :: id in order ==> RenameId(id) == id
    ensures FixEdge(current, order, v) == v
  {
    if v.Obj? {
      forall x ensures MapIdValue(current, x) == x && FixEdgeId(order, x) == x {
        CurrentList(current, x);
        if x.Str? {
          ReplaceCurrent(x.text, order);
        }
      }
      hide Update, MapIdValue, FixEdgeId, RenameId;
      UpdateFixed(v.entries, "source", s => MapIdValue(current, s));
      UpdateFixed(v.entries, "target", t => MapIdValue(current, t));
      UpdateFixed(v.entries, "id", i => FixEdgeId(order, i));
    }
  }

  lemma {:induction false} GraphTwice(
      ids: set<string>, order: seq<string>, current: set<string>, order': seq<string>, v: Value)
    requires IsCurrent(current) && forall id :: id in order' ==> RenameId(id) == id
    ensures FixGraph(current, order', FixGraph(ids, order, v)) == FixGraph(ids, order, v)
  {
    if v.Obj? {
      hide Update, FixNode, FixEdge, Lookup, RenameId, IsCurrent;
      var e1 := Update(v.entries, "nodes", ns => FixNodes(ids, ns));
      var e2 := Update(e1, "edges", es => FixEdges(ids, order, es));
      LookupUpdate(v.entries, "nodes", ns => FixNodes(ids, ns), "nodes");
      LookupUpdate(e1, "edges", es => FixEdges(ids, order, es), "nodes");
      forall x ensures FixNodes(current, FixNodes(ids, x)) == FixNodes(ids, x) {
        NodesTwice(ids, current, x);
      }
      forall x ensures FixEdges(current, order', x) == x {
        EdgesCurrent(current, order', x);
      }
      hide FixNodes, FixEdges;
      UpdateFixed(e2, "nodes", ns => FixNodes(current, ns));
      UpdateFixed(e2, "edges", es => FixEdges(current, order', es));
    }
  }

  lemma {:induction false} NodesTwice(ids: set<string>, current: set<string>, v: Value)
    requires IsCurrent(current)
    ensures FixNodes(current, FixNodes(ids, v)) == FixNodes(ids, v)
  {
    if v.Arr? {
      forall i | 0 <= i < |v.items| ensures FixNode(current, FixNode(ids, v.items[i])) == FixNode(ids, v.items[i]) {
        NodeTwice(ids, current, v.items[i]);
      }
      hide FixNode;
      var once := FixNodes(ids, v);
      assert FixNodes(current, once).items == once.items;
    }
  }

  lemma {:induction false} EdgesCurrent(current: set<string>, order: seq<string>, v: Value)
    requires IsCurrent(current) && forall id :: id in order ==> RenameId(id) == id
    ensures FixEdges(current, order, v) == v
  {
    if v.Arr? {
      forall i | 0 <= i < |v.items| ensures FixEdge(current, order, v.items[i]) == v.items[i] {
        CurrentEdge(current, order, v.items[i]);
      }
      hide FixEdge;
      assert FixEdges(current, order, v).items == v.items;
    }
  }

  lemma {:induction false} SortMembers(ids: seq<string>, id: string)
    ensures id in SortByLength(ids) <==> id in ids
  {
    if ids != [] {
      var n := |ids| - 1;
      SortMembers(ids[..n], id);
      InsertMembers(SortByLength(ids[..n]), ids[n], id);
      assert ids == ids[..n] + [ids[n]];
    }
  }

  lemma {:induction false} InsertMembers(ids: seq<string>, new': string, id: string)
    ensures id in InsertByLength(ids, new') <==> id == new' || id in ids
  {
    if ids != [] && |ids[0]| >= |new'| {
      InsertMembers(ids[1..], new', id);
      assert ids == [ids[0]] + ids[1..];
    }
  }

  // ----- the second pass over the document -----

  /** The document after the first pass, key by key. */
  lemma {:induction false} MigratedAt(entries: Entries, components: Entries, key: string)
    requires Lookup(entries, "components").Some?
    ensures var ids, order := KeySet(components), SortByLength(KeySeq(components));
            var before: Option<Value> := Lookup(entries, key);
            var after: Option<Value> := Lookup(MigrateWith(entries, components), key);
            && (before.None? <==> after.None?)
            && (key == "components" ==> after == Some(Obj(RewriteComponents(ids, components))))
            && (key == "path" && before.Some? ==> after.value == MapIdList(ids, before.value))
            && (key == "graph" && before.Some? ==> after.value == FixGraph(ids, order, before.value))
            && ((key == "history" || key == "messages" || key == "reference") && before.Some? ==>
                  after.value == RewriteValue(ids, before.value))
  {
    hide Update, MapIdList, FixGraph, RewriteValue, RewriteComponents, KeySet, KeySeq, SortByLength, Lookup, Put;
    var ids, order := KeySet(components), SortByLength(KeySeq(components));
    var e1 := Put(entries, "components", Obj(RewriteComponents(ids, components)));
    var e2 := Update(e1, "path", p => MapIdList(ids, p));
    var e3 := Update(e2, "graph", g => FixGraph(ids, order, g));
    var e4 := Update(e3, "history", h => RewriteValue(ids, h));
    var e5 := Update(e4, "messages", m => RewriteValue(ids, m));
    LookupPut(entries, "components", Obj(RewriteComponents(ids, components)), key);
    LookupUpdate(e1, "path", p => MapIdList(ids, p), key);
    LookupUpdate(e2, "graph", g => FixGraph(ids, order, g), key);
    LookupUpdate(e3, "history", h => RewriteValue(ids, h), key);
    LookupUpdate(e4, "messages", m => RewriteValue(ids, m), key);
    LookupUpdate(e5, "reference", r => RewriteValue(ids, r), key);
  }

  lemma {:induction false} UnknownFieldStays(entries: Entries, components: Entries, key: string)
    requires key !in ["components", "path", "graph", "history", "messages", "reference"]
    ensures Lookup(MigrateWith(entries, components), key) == Lookup(entries, key)
  {
    hide Update, MapIdList, FixGraph, RewriteValue, RewriteComponents, KeySet, KeySeq, SortByLength, Lookup, Put;
    var ids, order := KeySet(components), SortByLength(KeySeq(components));
    var e1 := Put(entries, "components", Obj(RewriteComponents(ids, components)));
    var e2 := Update(e1, "path", p => MapIdList(ids, p));
    var e3 := Update(e2, "graph", g => FixGraph(ids, order, g));
    var e4 := Update(e3, "history", h => RewriteValue(ids, h));
    var e5 := Update(e4, "messages", m => RewriteValue(ids, m));
    LookupPut(entries, "components", Obj(RewriteComponents(ids, components)), key);
    LookupUpdate(e1, "path", p => MapIdList(ids, p), key);
    LookupUpdate(e2, "graph", g => FixGraph(ids, order, g), key);
    LookupUpdate(e3, "history", h => RewriteValue(ids, h), key);
    LookupUpdate(e4, "messages", m => RewriteValue(ids, m), key);
    LookupUpdate(e5, "reference", r => RewriteValue(ids, r), key);
  }

  lemma {:induction false} KeyMembers(entries: Entries, id: string)
    ensures id in KeySeq(entries) <==> id in KeySet(entries)
  {
    if id in KeySet(entries) {
      var e :| e in entries && e.0 == id;
      var i :| 0 <= i < |entries| && entries[i] == e;
      assert KeySeq(entries)[i] == id;
    }
    if id in KeySeq(entries) {
      var i :| 0 <= i < |entries| && KeySeq(entries)[i] == id;
      assert entries[i] in entries;
    }
  }

  lemma {:induction false} DocumentTwice(entries: Entries, components: Entries)
    requires Lookup(entries, "components") == Some(Obj(components))
    ensures var ids := KeySet(components);
            var e, r := MigrateWith(entries, components), RewriteComponents(ids, components);
            Lookup(e, "components") == Some(Obj(r)) && MigrateWith(e, r) == e
  {
    var ids, order := KeySet(components), SortByLength(KeySeq(components));
    var e, r := MigrateWith(entries, components), RewriteComponents(ids, components);
    var current, order' := KeySet(r), SortByLength(KeySeq(r));
    RewrittenIsCurrent(ids, components);
    ComponentsTwice(ids, components);
    forall id | id in order' ensures RenameId(id) == id {
      SortMembers(KeySeq(r), id);
      KeyMembers(r, id);
    }
    MigratedAt(entries, components, "components");
    MigratedAt(entries, components, "graph");
    if Lookup(entries, "graph").Some? {
      GraphTwice(ids, order, current, order', Lookup(entries, "graph").value);
    }
    hide MigrateWith, RewriteComponents, FixGraph, KeySet, KeySeq, SortByLength;
    SecondPass(e, r, current, order');
  }

  lemma {:induction false} SecondPass(e: Entries, r: Entries, current: set<string>, order: seq<string>)
    requires current == KeySet(r) && order == SortByLength(KeySeq(r)) && IsCurrent(current)
    requires Lookup(e, "components") == Some(Obj(r)) && RewriteComponents(current, r) == r
    requires Lookup(e, "graph").Some? ==> FixGraph(current, order, Lookup(e, "graph").value) == Lookup(e, "graph").value
    ensures MigrateWith(e, r) == e
  {
    hide FixGraph, RewriteComponents, KeySet, KeySeq, SortByLength, Update, IsCurrent, MapIdList, RewriteValue, Lookup,
         Put;
    PutSame(e, "components");
    forall x ensures MapIdList(current, x) == x && RewriteValue(current, x) == x {
      CurrentList(current, x);
      CurrentValue(current, x);
    }
    UpdateFixed(e, "path", p => MapIdList(current, p));
    UpdateFixed(e, "graph", g => FixGraph(current, order, g));
    UpdateFixed(e, "history", h => RewriteValue(current, h));
    UpdateFixed(e, "messages", m => RewriteValue(current, m));
    UpdateFixed(e, "reference", r' => RewriteValue(current, r'));
  }

  // ----- main results -----

  /** Migrating a migrated document changes nothing, colliding ids included. */
  lemma {:induction false} MigrationIsIdempotent(dsl: Value)
    ensures Migrate(Migrate(dsl)) == Migrate(dsl)
  {
    if dsl.Obj? {
      var components: Option<Value> := Lookup(dsl.entries, "components");
      if components.Some? && components.value.Obj? {
        DocumentTwice(dsl.entries, components.value.entries);
        hide MigrateWith, RewriteComponents, KeySet;
      }
    }
  }
}
