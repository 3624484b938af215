/** `normalize_chunker_dsl` as the program runs it: loops that build the id map and edit a copy. */
module MigrationProgram {
  import opened Wrappers
  import opened Dicts
  import opened Json
  import opened Migration

  /** The loop over the rename table, which stops at the first matching prefix. */
  method NewComponentId(id: string) returns (r: string)
    ensures r == RenameId(id)
  {
    r := id;
    assert COMPONENT_RENAMES[0..] == COMPONENT_RENAMES;
    for i := 0 to |COMPONENT_RENAMES|
      invariant r == id && RenameId(id) == RenamePrefix(COMPONENT_RENAMES[i..], id)
    {
      var prefix := COMPONENT_RENAMES[i].0 + ":";
      assert COMPONENT_RENAMES[i..][0] == COMPONENT_RENAMES[i];
      assert COMPONENT_RENAMES[i..][1..] == COMPONENT_RENAMES[i + 1..];
      if prefix <= id {
        r := COMPONENT_RENAMES[i].1 + ":" + id[|prefix|..];
        break;
      }
    }
  }

  method BuildIdMap(components: Entries) returns (idMap: map<string, string>)
    ensures idMap.Keys == KeySet(components)
    ensures forall id :: id in idMap ==> idMap[id] == RenameId(id)
  {
    idMap := map[];
    for i := 0 to |components|
      invariant idMap.Keys == KeySet(components[..i])
      invariant forall id :: id in idMap ==> idMap[id] == RenameId(id)
    {
      var id := components[i].0;
      var renamed := NewComponentId(id);
      idMap := idMap[id := renamed];
      assert components[..i + 1] == components[..i] + [components[i]];
      assert KeySet(components[..i + 1]) == KeySet(components[..i]) + {id};
    }
    assert components[..|components|] == components;
  }

  method RewriteEachComponent(components: Entries, idMap: map<string, string>) returns (r: Option<Entries>)
    requires idMap.Keys == KeySet(components) && forall id :: id in idMap ==> idMap[id] == RenameId(id)
    ensures r.None? <==> exists e :: e in components && ComponentRaises(e.1)
    ensures r.Some? ==> r.value == RewriteComponents(KeySet(components), components)
  {
    hide RewriteComponent, RenameId, ComponentRaises;
    var ids := idMap.Keys;
    var rewritten: Entries := [];
    for i := 0 to |components|
      invariant forall e :: e in components[..i] ==> !ComponentRaises(e.1)
      invariant rewritten == RewriteComponents(ids, components[..i])
    {
      var c := components[i];
      assert c in components && c.0 in KeySet(components);
      if ComponentRaises(c.1) {
        return None;
      }
      assert components[..i + 1] == components[..i] + [c] && components[..i + 1][..i] == components[..i];
      rewritten := Put(rewritten, idMap[c.0], RewriteComponent(ids, c.1));
    }
    assert components[..|components|] == components;
    return Some(rewritten);
  }

  method EditNodes(ids: set<string>, v: Value) returns (r: Value)
    ensures r == FixNodes(ids, v)
  {
    if !v.Arr? {
      return v;
    }
    var nodes := v.items;
    for i := 0 to |nodes|
      invariant |nodes| == |v.items|
      invariant forall j :: 0 <= j < i ==> nodes[j] == FixNode(ids, v.items[j])
      invariant forall j :: i <= j < |nodes| ==> nodes[j] == v.items[j]
    {
      nodes := nodes[i := FixNode(ids, nodes[i])];
    }
    r := Arr(nodes);
    assert r.items == FixNodes(ids, v).items;
  }

  method EditEdgeId(text: string, order: seq<string>) returns (r: string)
    ensures r == ReplaceIds(text, order)
  {
    r := text;
    assert order[0..] == order;
    for i := 0 to |order|
      invariant ReplaceIds(r, order[i..]) == ReplaceIds(text, order)
    {
      assert order[i..][0] == order[i] && order[i..][1..] == order[i + 1..];
      var renamed := NewComponentId(order[i]);
      r := ReplaceAll(r, order[i], renamed);
    }
  }

  method EditEdge(ids: set<string>, order: seq<string>, edge: Value) returns (r: Value)
    ensures r == FixEdge(ids, order, edge)
  {
    if !edge.Obj? {
      return edge;
    }
    var entries := Update(edge.entries, "source", s => MapIdValue(ids, s));
    entries := Update(entries, "target", t => MapIdValue(ids, t));
    var id: Option<Value> := Lookup(entries, "id");
    if id.Some? && id.value.Str? {
      var text := EditEdgeId(id.value.text, order);
      entries := Put(entries, "id", Str(text));
    } else {
      UpdateFixed(entries, "id", i => FixEdgeId(order, i));
    }
    r := Obj(entries);
  }

  method EditEdges(ids: set<string>, order: seq<string>, v: Value) returns (r: Value)
    ensures r == FixEdges(ids, order, v)
  {
    if !v.Arr? {
      return v;
    }
    var edges := v.items;
    for i := 0 to |edges|
      invariant |edges| == |v.items|
      invariant forall j :: 0 <= j < i ==> edges[j] == FixEdge(ids, order, v.items[j])
      invariant forall j :: i <= j < |edges| ==> edges[j] == v.items[j]
    {
      var edge := EditEdge(ids, order, edges[i]);
      edges := edges[i := edge];
    }
    r := Arr(edges);
    assert r.items == FixEdges(ids, order, v).items;
  }

  method EditGraph(ids: set<string>, order: seq<string>, graph: Value) returns (r: Value)
    ensures r == FixGraph(ids, order, graph)
  {
    if !graph.Obj? {
      return graph;
    }
    var entries := graph.entries;
    var nodes: Option<Value> := Lookup(entries, "nodes");
    if nodes.Some? {
      var edited := EditNodes(ids, nodes.value);
      entries := Put(entries, "nodes", edited);
    }
    var edges: Option<Value> := Lookup(entries, "edges");
    if edges.Some? {
      var edited := EditEdges(ids, order, edges.value);
      entries := Put(entries, "edges", edited);
    }
    r := Obj(entries);
  }

  method NormalizeChunkerDsl(dsl: Value) returns (r: Option<Value>)
    ensures r == Normalize(dsl)
  {
    if !dsl.Obj? {
      return Some(dsl);
    }
    var found: Option<Value> := Lookup(dsl.entries, "components");
    if found.None? || !found.value.Obj? {
      return Some(dsl);
    }
    var components := found.value.entries;
    var idMap := BuildIdMap(components);
    var rewritten := RewriteEachComponent(components, idMap);
    if rewritten.None? || ListRaises(Lookup(dsl.entries, "path")) {
      return None;
    }
    var entries := EditDocument(dsl.entries, components, rewritten.value);
    return Some(Obj(entries));
  }

  method EditDocument(before: Entries, components: Entries, rewritten: Entries) returns (entries: Entries)
    requires rewritten == RewriteComponents(KeySet(components), components)
    ensures entries == MigrateWith(before, components)
  {
    hide KeySet, KeySeq, SortByLength, RewriteComponents, FixGraph, RewriteValue, MapIdList;
    var ids, order := KeySet(components), SortByLength(KeySeq(components));
    entries := Put(before, "components", Obj(rewritten));
    entries := Update(entries, "path", p => MapIdList(ids, p));
    var graph: Option<Value> := Lookup(entries, "graph");
    if graph.Some? {
      var edited := EditGraph(ids, order, graph.value);
      entries := Put(entries, "graph", edited);
    }
    entries := Update(entries, "history", h => RewriteValue(ids, h));
    entries := Update(entries, "messages", m => RewriteValue(ids, m));
    entries := Update(entries, "reference", r => RewriteValue(ids, r));
  }
}
