/**
 The in-memory metadata filter (common/metadata_utils.py, `meta_filter`) over the flattened
 metadata table (api/db/services/doc_metadata_service.py, `get_flatted_meta_by_kbs`).
 */
module MetaFilter {
  import opened Wrappers
  import opened Dicts
  import opened Text

  // ----- filters -----

  /** The operators modelled; the four range comparisons are not. */
  datatype Op = Equal | NotEqual | In | NotIn | Contain | NotContain | StartWith | EndWith | Empty | NotEmpty

  datatype FilterValue = NoValue | One(text: string) | Many(texts: seq<string>)

  datatype Filter = Filter(key: string, op: Op, value: FilterValue)

  /** What `ast.literal_eval` can return, as far as equality tells it apart: numbers and truth values, and the rest. */
  datatype Literal =
    | LitText(text: string) | LitNone | LitTexts(texts: seq<string>)
    | LitNumber(tag: int) | LitOther(tag: int)

  /** `ast.literal_eval` and `str(list)`. */
  datatype Python = Python(literal: string -> Option<Literal>, show: seq<string> -> string)

  function LowerAll(texts: seq<string>): seq<string> {
    seq(|texts|, i requires 0 <= i < |texts| => Lower(texts[i]))
  }

  function Normalized(v: FilterValue): FilterValue {
    match v
    case NoValue => NoValue
    case One(t) => One(Lower(t))
    case Many(ts) => Many(LowerAll(ts))
  }

  predicate IsDigit(c: char) {
    '0' <= c <= '9'
  }

  /** YYYY-MM-DD */
  predicate IsDate(s: string) {
    && |s| == 10 && s[4] == '-' && s[7] == '-'
    && IsDigit(s[0]) && IsDigit(s[1]) && IsDigit(s[2]) && IsDigit(s[3])
    && IsDigit(s[5]) && IsDigit(s[6]) && IsDigit(s[8]) && IsDigit(s[9])
  }

  function LowerLiteral(l: Literal): Literal {
    if l.LitText? then LitText(Lower(l.text)) else l
  }

  /** The value a typed (non-string) filter value is compared as. */
  function Typed(v: FilterValue): Literal
    requires !v.One?
  {
    if v.NoValue? then LitNone else LitTexts(v.texts)
  }

  /** `input == value` after the date and literal coercions; no result when the record is skipped. */
  function Equals(py: Python, input: string, value: FilterValue): Option<bool> {
    if value.One? then
      if IsDate(Trim(value.text)) then
        if IsDate(Trim(input)) then Some(Trim(input) == Trim(value.text)) else None
      else if py.literal(input).Some? && py.literal(value.text).Some? then
        Some(LowerLiteral(py.literal(input).value) == LowerLiteral(py.literal(value.text).value))
      else
        Some(Lower(input) == Lower(value.text))
    else
      match py.literal(input)
      case Some(l) => Some(LowerLiteral(l) == Typed(value))
      case None => Some(false)
  }

  function Shown(py: Python, v: FilterValue): string {
    match v
    case NoValue => "None"
    case One(t) => t
    case Many(ts) => py.show(ts)
  }

  /** Whether the bucket of documents with the value `input` matches; a raised TypeError counts as no. */
  predicate BucketMatches(py: Python, op: Op, input: string, value: FilterValue) {
    var v := Normalized(value);
    match op
    case Equal => Equals(py, input, value) == Some(true)
    case NotEqual => Equals(py, input, value) == Some(false)
    case Contain => v.One? && Contains(Lower(input), v.text)
    case NotContain => v.One? && !Contains(Lower(input), v.text)
    case In => (v.One? && Contains(v.text, Lower(input))) || (v.Many? && Lower(input) in v.texts)
    case NotIn => (v.One? && !Contains(v.text, Lower(input))) || (v.Many? && Lower(input) !in v.texts)
    case StartWith => StartsWith(Lower(input), Lower(Shown(py, v)))
    case EndWith => EndsWith(Lower(input), Lower(Shown(py, v)))
    case Empty => input == ""
    case NotEmpty => input != ""
  }

  // ----- documents and the flattened table -----

  /** A document of a knowledge base; each metadata field holds the list of its string values. */
  datatype Doc = Doc(id: string, kb: string, fields: Dict<seq<string>>)

  function Values(doc: Doc, key: string): seq<string> {
    match Lookup(doc.fields, key) case None => [] case Some(vs) => vs
  }

  /** Document ids by value, for each field name. */
  type Buckets = Dict<seq<string>>
  type Metas = map<string, Buckets>

  /** Document `id` sits in the bucket of value `x`. */
  ghost predicate InBucket(buckets: Buckets, x: string, id: string) {
    exists e :: e in buckets && e.0 == x && id in e.1
  }

  ghost predicate InTable(metas: Metas, key: string, x: string, id: string) {
    key in metas && InBucket(metas[key], x, id)
  }

  /** Some listed document `id` has `x` among its values of `key`. */
  ghost predicate HasValue(docs: seq<Doc>, key: string, x: string, id: string) {
    exists doc :: doc in docs && doc.id == id && x in Values(doc, key)
  }

  /** The table lists exactly the values the documents have. */
  ghost predicate Tabulates(metas: Metas, docs: seq<Doc>) {
    forall key, x, id :: InTable(metas, key, x, id) <==> HasValue(docs, key, x, id)
  }

  ghost predicate WellFormedDoc(doc: Doc) {
    UniqueKeys(doc.fields)
  }

  /** `meta[k].setdefault(x, []).append(id)` */
  function AddToBucket(buckets: Buckets, x: string, id: string): Buckets {
    match Lookup(buckets, x)
    case None => Put(buckets, x, [id])
    case Some(ids) => Put(buckets, x, ids + [id])
  }

  lemma {:induction false} EntriesOfPut<V>(dict: Dict<V>, key: string, value: V, e: (string, V))
    requires UniqueKeys(dict)
    ensures e in Put(dict, key, value) <==> e == (key, value) || (e in dict && e.0 != key)
  {
    var r := Put(dict, key, value);
    PutKeepsUnique(dict, key, value);
    LookupPut(dict, key, value, key);
    LookupPut(dict, key, value, e.0);
    LookupFindsEntry(r, key);
    LookupFindsEntry(r, e.0);
    LookupFindsEntry(dict, e.0);
    hide Put, Lookup;
    if e in r {
      UniqueLookup(r, e.0, e.1);
    }
    if e in dict {
      UniqueLookup(dict, e.0, e.1);
    }
  }

  lemma {:induction false} BucketGrows(buckets: Buckets, x: string, id: string, y: string, other: string)
    requires UniqueKeys(buckets)
    ensures UniqueKeys(AddToBucket(buckets, x, id))
    ensures InBucket(AddToBucket(buckets, x, id), y, other) <==> InBucket(buckets, y, other) || (y == x && other == id)
  {
    var ids := match Lookup(buckets, x) case None => [] case Some(before) => before;
    var r := AddToBucket(buckets, x, id);
    assert r == Put(buckets, x, ids + [id]) by {
      assert [] + [id] == [id];
    }
    PutKeepsUnique(buckets, x, ids + [id]);
    LookupFindsEntry(buckets, x);
    if e :| e in r && e.0 == y && other in e.1 {
      EntriesOfPut(buckets, x, ids + [id], e);
    }
    if e :| e in buckets && e.0 == y && other in e.1 {
      EntriesOfPut(buckets, x, ids + [id], e);
      EntriesOfPut(buckets, x, ids + [id], (x, ids + [id]));
      if y == x {
        UniqueLookup(buckets, x, e.1);
        assert other in (ids + [id]);
        assert (x, ids + [id]) in r;
      }
    }
    if y == x && other == id {
      EntriesOfPut(buckets, x, ids + [id], (x, ids + [id]));
      assert id in (ids + [id]);
    }
  }

  /** What the loops have entered so far: the first `d` documents, `f` fields of the next, `v` values of the next. */
  ghost predicate Entered(docs: seq<Doc>, d: nat, f: nat, v: nat, key: string, x: string, id: string)
    requires d <= |docs|
    requires d < |docs| ==> f <= |docs[d].fields|
    requires d < |docs| && f < |docs[d].fields| ==> v <= |docs[d].fields[f].1|
  {
    || HasEntry(docs[..d], key, x, id)
    || (d < |docs| && docs[d].id == id &&
        (|| ListsValue(docs[d].fields[..f], key, x)
         || (f < |docs[d].fields| && docs[d].fields[f].0 == key && x in docs[d].fields[f].1[..v])))
  }

  ghost predicate ListsValue(fields: Dict<seq<string>>, key: string, x: string) {
    exists e :: e in fields && e.0 == key && x in e.1
  }

  ghost predicate HasEntry(docs: seq<Doc>, key: string, x: string, id: string) {
    exists doc :: doc in docs && doc.id == id && ListsValue(doc.fields, key, x)
  }

  lemma {:induction false} EntriesAreValues(docs: seq<Doc>, key: string, x: string, id: string)
    requires forall doc :: doc in docs ==> WellFormedDoc(doc)
    ensures HasEntry(docs, key, x, id) <==> HasValue(docs, key, x, id)
  {
    forall doc | doc in docs ensures ListsValue(doc.fields, key, x) <==> x in Values(doc, key) {
      LookupFindsEntry(doc.fields, key);
      if e :| e in doc.fields && e.0 == key && x in e.1 {
        UniqueLookup(doc.fields, key, e.1);
      }
    }
  }

  /** The table the loops should hold after entering that much. */
  ghost predicate HoldsSoFar(metas: Metas, docs: seq<Doc>, d: nat, f: nat, v: nat)
    requires d <= |docs|
    requires d < |docs| ==> f <= |docs[d].fields|
    requires d < |docs| && f < |docs[d].fields| ==> v <= |docs[d].fields[f].1|
  {
    && (forall key :: key in metas ==> UniqueKeys(metas[key]))
    && (forall key, x, id :: InTable(metas, key, x, id) <==> Entered(docs, d, f, v, key, x, id))
  }

  lemma {:induction false} EnterKey(metas: Metas, k: string)
    requires k !in metas && forall key :: key in metas ==> UniqueKeys(metas[key])
    ensures var r := metas[k := []]; forall key :: key in r ==> UniqueKeys(r[key])
    ensures forall key, x, id :: InTable(metas[k := []], key, x, id) <==> InTable(metas, key, x, id)
  {
  }

  lemma {:induction false} EnterValue(metas: Metas, docs: seq<Doc>, d: nat, f: nat, v: nat)
    requires d < |docs| && f < |docs[d].fields| && v < |docs[d].fields[f].1|
    requires docs[d].fields[f].0 in metas && HoldsSoFar(metas, docs, d, f, v)
    ensures var k, x := docs[d].fields[f].0, docs[d].fields[f].1[v];
            HoldsSoFar(metas[k := AddToBucket(metas[k], x, docs[d].id)], docs, d, f, v + 1)
  {
    var k, y := docs[d].fields[f].0, docs[d].fields[f].1[v];
    var r := metas[k := AddToBucket(metas[k], y, docs[d].id)];
    BucketGrows(metas[k], y, docs[d].id, "", "");
    forall key, x, id ensures InTable(r, key, x, id) <==> Entered(docs, d, f, v + 1, key, x, id) {
      hide HasEntry, ListsValue, AddToBucket;
      BucketGrows(metas[k], y, docs[d].id, x, id);
      assert InTable(metas, key, x, id) <==> Entered(docs, d, f, v, key, x, id);
      assert docs[d].fields[f].1[..v + 1] == docs[d].fields[f].1[..v] + [y];
    }
  }

  lemma {:induction false} NextField(metas: Metas, docs: seq<Doc>, d: nat, f: nat)
    requires d < |docs| && f < |docs[d].fields| && HoldsSoFar(metas, docs, d, f, |docs[d].fields[f].1|)
    ensures HoldsSoFar(metas, docs, d, f + 1, 0)
  {
    var fields := docs[d].fields;
    assert fields[..f + 1] == fields[..f] + [fields[f]];
    assert fields[f].1[..|fields[f].1|] == fields[f].1;
    forall key, x, id
      ensures Entered(docs, d, f, |fields[f].1|, key, x, id) <==> Entered(docs, d, f + 1, 0, key, x, id)
    {
      assert ListsValue(fields[..f + 1], key, x)
        <==> ListsValue(fields[..f], key, x) || (fields[f].0 == key && x in fields[f].1) by {
        assert fields[f] in fields[..f + 1];
      }
    }
  }

  lemma {:induction false} NextDoc(metas: Metas, docs: seq<Doc>, d: nat)
    requires d < |docs| && HoldsSoFar(metas, docs, d, |docs[d].fields|, 0)
    ensures HoldsSoFar(metas, docs, d + 1, 0, 0)
  {
    assert docs[..d + 1] == docs[..d] + [docs[d]];
    assert docs[d].fields[..|docs[d].fields|] == docs[d].fields;
    forall key, x, id
      ensures Entered(docs, d, |docs[d].fields|, 0, key, x, id) <==> Entered(docs, d + 1, 0, 0, key, x, id)
    {
      assert HasEntry(docs[..d + 1], key, x, id)
        <==> HasEntry(docs[..d], key, x, id) || (docs[d].id == id && ListsValue(docs[d].fields, key, x)) by {
        assert docs[d] in docs[..d + 1];
      }
    }
  }

  /** The aggregation loops of `get_flatted_meta_by_kbs`. */
  method FlattenMetadata(docs: seq<Doc>) returns (metas: Metas)
    requires forall doc :: doc in docs ==> WellFormedDoc(doc)
    ensures Tabulates(metas, docs)
  {
    metas := map[];
    assert docs[..0] == [];
    for d := 0 to |docs|
      invariant HoldsSoFar(metas, docs, d, 0, 0)
    {
      var fields := docs[d].fields;
      for f := 0 to |fields|
        invariant HoldsSoFar(metas, docs, d, f, 0)
      {
        var k := fields[f].0;
        if k !in metas {
          EnterKey(metas, k);
          metas := metas[k := []];
        }
        for v := 0 to |fields[f].1|
          invariant k in metas && HoldsSoFar(metas, docs, d, f, v)
        {
          EnterValue(metas, docs, d, f, v);
          metas := metas[k := AddToBucket(metas[k], fields[f].1[v], docs[d].id)];
        }
        NextField(metas, docs, d, f);
      }
      NextDoc(metas, docs, d);
    }
    assert docs[..|docs|] == docs;
    forall key, x, id ensures InTable(metas, key, x, id) <==> HasValue(docs, key, x, id) {
      EntriesAreValues(docs, key, x, id);
    }
  }

  // ----- the filter -----

  /** Document `id` is in some bucket that matches the filter. */
  ghost predicate Passes(py: Python, metas: Metas, f: Filter, id: string) {
    f.key in metas && exists e :: e in metas[f.key] && BucketMatches(py, f.op, e.0, f.value) && id in e.1
  }

  /** What `meta_filter` promises: all filters for "and", some filter otherwise, and nothing without filters. */
  ghost predicate Selected(py: Python, metas: Metas, filters: seq<Filter>, logic: string, id: string) {
    filters != [] &&
    if logic == "and" then forall f :: f in filters ==> Passes(py, metas, f, id)
    else exists f :: f in filters && Passes(py, metas, f, id)
  }

  method FilterOut(py: Python, buckets: Buckets, op: Op, value: FilterValue) returns (ids: seq<string>)
    ensures forall id :: id in ids <==> exists e :: e in buckets && BucketMatches(py, op, e.0, value) && id in e.1
  {
    ids := [];
    for i := 0 to |buckets|
      invariant forall id ::
                  id in ids <==> exists e :: e in buckets[..i] && BucketMatches(py, op, e.0, value) && id in e.1
    {
      var e := buckets[i];
      assert buckets[..i + 1] == buckets[..i] + [e];
      if BucketMatches(py, op, e.0, value) {
        ids := ids + e.1;
      }
    }
    assert buckets[..|buckets|] == buckets;
  }

  /** `meta_filter`, with its early return. */
  method Run(py: Python, metas: Metas, filters: seq<Filter>, logic: string) returns (r: set<string>)
    ensures forall id :: id in r <==> Selected(py, metas, filters, logic, id)
  {
    var docIds: Option<set<string>> := None;
    for i := 0 to |filters|
      invariant docIds.None? <==> i == 0
      invariant docIds.Some? ==> forall id :: id in docIds.value <==> Selected(py, metas, filters[..i], logic, id)
    {
      var f := filters[i];
      ghost var prefix := filters[..i + 1];
      assert prefix == filters[..i] + [f];
      var ids := [];
      if f.key in metas {
        ids := FilterOut(py, metas[f.key], f.op, f.value);
      }
      assert forall id :: id in ids <==> Passes(py, metas, f, id);
      var found := set id | id in ids;
      SelectedSnoc(py, metas, filters[..i], f, logic);
      if docIds.None? {
        docIds := Some(found);
      } else if logic == "and" {
        docIds := Some(docIds.value * found);
        if docIds.value == {} {
          assert forall id :: Selected(py, metas, prefix, logic, id) ==> id in docIds.value;
          EmptyStaysEmpty(py, metas, filters, logic, i + 1);
          return {};
        }
      } else {
        docIds := Some(docIds.value + found);
      }
    }
    assert filters[..|filters|] == filters;
    r := if docIds.None? then {} else docIds.value;
  }

  lemma {:induction false} SelectedSnoc(py: Python, metas: Metas, filters: seq<Filter>, f: Filter, logic: string)
    ensures forall id :: Selected(py, metas, filters + [f], logic, id) <==>
              if filters == [] then Passes(py, metas, f, id)
              else if logic == "and" then Selected(py, metas, filters, logic, id) && Passes(py, metas, f, id)
              else Selected(py, metas, filters, logic, id) || Passes(py, metas, f, id)
  {
    hide Passes;
    assert f in filters + [f];
    assert forall h :: h in filters ==> h in filters + [f];
  }

  /** Once the intersection is empty, no later filter can bring a document back. */
  lemma {:induction false} EmptyStaysEmpty(py: Python, metas: Metas, filters: seq<Filter>, logic: string, i: nat)
    requires 0 < i <= |filters| && logic == "and" && forall id :: !Selected(py, metas, filters[..i], logic, id)
    ensures forall id :: !Selected(py, metas, filters, logic, id)
  {
    hide Passes;
    forall id ensures !Selected(py, metas, filters, logic, id) {
      assert !Selected(py, metas, filters[..i], logic, id);
      var f :| f in filters[..i] && !Passes(py, metas, f, id);
      assert f in filters;
    }
  }
}
