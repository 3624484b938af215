/**
 Push-down against the in-memory filter: which documents the Elasticsearch query matches and which
 `meta_filter` returns (common/metadata_es_filter.py, common/metadata_utils.py).
 */
module Pushdown {
  import opened Wrappers
  import opened Dicts
  import opened Text
  import opened Wildcard
  import opened MetaFilter
  import opened EsFilter

  // ----- in-memory filtering, document by document -----

  /** Some value of the document is in a matching bucket. */
  ghost predicate DocPasses(py: Python, doc: Doc, f: Filter) {
    exists x :: x in Values(doc, f.key) && BucketMatches(py, f.op, x, f.value)
  }

  ghost predicate DocSelected(py: Python, doc: Doc, filters: seq<Filter>, logic: string) {
    filters != [] &&
    if logic == "and" then forall f :: f in filters ==> DocPasses(py, doc, f)
    else exists f :: f in filters && DocPasses(py, doc, f)
  }

  ghost predicate UniqueIds(docs: seq<Doc>) {
    forall a, b :: a in docs && b in docs && a.id == b.id ==> a == b
  }

  lemma {:induction false} TableMeaning(py: Python, metas: Metas, docs: seq<Doc>, f: Filter, doc: Doc)
    requires Tabulates(metas, docs) && UniqueIds(docs) && doc in docs
    ensures MetaFilter.Passes(py, metas, f, doc.id) <==> DocPasses(py, doc, f)
  {
    hide BucketMatches;
    if MetaFilter.Passes(py, metas, f, doc.id) {
      var e :| e in metas[f.key] && BucketMatches(py, f.op, e.0, f.value) && doc.id in e.1;
      assert InTable(metas, f.key, e.0, doc.id);
      assert HasValue(docs, f.key, e.0, doc.id);
    }
    if DocPasses(py, doc, f) {
      var x :| x in Values(doc, f.key) && BucketMatches(py, f.op, x, f.value);
      assert HasValue(docs, f.key, x, doc.id);
      assert InTable(metas, f.key, x, doc.id);
    }
  }

  lemma {:induction false} PassersAreDocs(py: Python, metas: Metas, docs: seq<Doc>, f: Filter, id: string)
    requires Tabulates(metas, docs) && MetaFilter.Passes(py, metas, f, id)
    ensures exists doc :: doc in docs && doc.id == id
  {
    hide BucketMatches;
    var e :| e in metas[f.key] && BucketMatches(py, f.op, e.0, f.value) && id in e.1;
    assert InTable(metas, f.key, e.0, id);
    assert HasValue(docs, f.key, e.0, id);
  }

  /** `meta_filter` over the flattened table selects the documents that pass, one by one. */
  lemma {:induction false} SelectedMeaning(
      py: Python, metas: Metas, docs: seq<Doc>, filters: seq<Filter>, logic: string, id: string)
    requires Tabulates(metas, docs) && UniqueIds(docs)
    ensures Selected(py, metas, filters, logic, id)
       <==> exists doc :: doc in docs && doc.id == id && DocSelected(py, doc, filters, logic)
  {
    forall f, doc | doc in docs ensures MetaFilter.Passes(py, metas, f, doc.id) <==> DocPasses(py, doc, f) {
      TableMeaning(py, metas, docs, f, doc);
    }
    hide MetaFilter.Passes, DocPasses;
    if Selected(py, metas, filters, logic, id) {
      assert filters[0] in filters;
      var f :| f in filters && MetaFilter.Passes(py, metas, f, id);
      PassersAreDocs(py, metas, docs, f, id);
      var doc :| doc in docs && doc.id == id;
      assert DocSelected(py, doc, filters, logic);
    }
  }

  // ----- the fragments -----

  predicate IsTrimmed(s: string) {
    Trim(s) == s
  }

  /** Filters whose translation means the same on every document. */
  predicate InFragment(py: Python, f: Filter) {
    f.key != "" &&
    match f.op
    case Contain => f.value.One? && f.value.text != ""
    case StartWith => f.value.One? && f.value.text != ""
    case EndWith => f.value.One? && f.value.text != ""
    case Equal => f.value.One? && IsTrimmed(f.value.text) && !IsDate(f.value.text) && py.literal(f.value.text).None?
    case In => f.value.Many? && f.value.texts != [] && forall t :: t in f.value.texts ==> IsTrimmed(t)
    case _ => false
  }

  /** Negated filters, translated to a rejection of the whole document. */
  predicate IsNegative(f: Filter) {
    f.key != "" && ((f.op == NotContain && f.value.One? && f.value.text != "") || f.op == NotEmpty)
  }

  /** The field has a value that the negated filter accepts and one that it rejects. */
  ghost predicate IsMixed(py: Python, doc: Doc, f: Filter) {
    DocPasses(py, doc, f) && exists x :: x in Values(doc, f.key) && !BucketMatches(py, f.op, x, f.value)
  }

  // ----- string lemmas -----

  lemma {:induction false} LowerTwice(s: string)
    ensures Lower(Lower(s)) == Lower(s)
  {
  }

  lemma {:induction false} LowerKeepsTrimmed(s: string)
    requires IsTrimmed(s)
    ensures IsTrimmed(Lower(s))
  {
    if s != [] {
      assert !IsSpace(s[0]) && !IsSpace(s[|s| - 1]);
      SpaceFolds(s[0]);
      SpaceFolds(s[|s| - 1]);
    }
  }

  lemma {:induction false} SpaceFolds(c: char)
    ensures IsSpace(LowerChar(c)) <==> IsSpace(c)
  {
  }

  // ----- one filter -----

  lemma {:induction false} MemberOfLowered(texts: seq<string>, y: string)
    ensures y in LowerAll(texts) <==> exists i :: 0 <= i < |texts| && y == Lower(texts[i])
  {
    if y in LowerAll(texts) {
      var i :| 0 <= i < |texts| && LowerAll(texts)[i] == y;
      assert y == Lower(texts[i]);
    }
    if i :| 0 <= i < |texts| && y == Lower(texts[i]) {
      assert LowerAll(texts)[i] == y;
    }
  }

  lemma {:induction false} OneMust(engine: Engine, doc: Doc, q: Clause)
    ensures Satisfies(engine, doc, Translated([q], [])) <==> Matches(engine, doc, q)
  {
    hide Matches;
    assert q in [q];
  }

  /** Membership of a list of trimmed strings. */
  lemma {:induction false} InTranslates(py: Python, f: Filter)
    requires InFragment(py, f) && f.op == In
    ensures Translate(py, f) == Ok(Translated([TermsFor(f.key, LowerTrimmed(f.value.texts))], []))
  {
    hide LowerTrimmed, TermsFor;
  }

  ghost predicate AmongTexts(x: string, texts: seq<string>) {
    exists i :: 0 <= i < |texts| && Lower(x) == Lower(texts[i])
  }

  lemma {:induction false} InBucket(py: Python, texts: seq<string>, x: string)
    ensures BucketMatches(py, In, x, Many(texts)) <==> AmongTexts(x, texts)
  {
    MemberOfLowered(texts, Lower(x));
    hide Lower, LowerAll;
  }

  lemma {:induction false} InAgrees(engine: Engine, py: Python, doc: Doc, f: Filter)
    requires InFragment(py, f) && f.op == In
    ensures Matches(engine, doc, TermsFor(f.key, LowerTrimmed(f.value.texts))) <==> DocPasses(py, doc, f)
  {
    NormalisedMembers(py, f);
    var texts := f.value.texts;
    var members := LowerTrimmed(texts);
    assert f.value == Many(texts) && texts != [];
    hide Matches, Values, TermsFor, Lower, BucketMatches, LowerTrimmed, InFragment, AmongTexts;
    forall x ensures BucketMatches(py, In, x, f.value) <==> AmongTexts(x, members) {
      InBucket(py, texts, x);
    }
    AnyTerm(engine, doc, f.key, members);
  }

  lemma {:induction false} NormalisedMembers(py: Python, f: Filter)
    requires InFragment(py, f) && f.op == In
    ensures var texts, members := f.value.texts, LowerTrimmed(f.value.texts);
            |members| == |texts| && forall x :: AmongTexts(x, members) <==> AmongTexts(x, texts)
  {
    hide Lower;
    var texts, members := f.value.texts, LowerTrimmed(f.value.texts);
    forall i | 0 <= i < |texts| ensures Lower(members[i]) == Lower(texts[i]) {
      LowerKeepsTrimmed(texts[i]);
      LowerTwice(texts[i]);
    }
  }

  lemma {:induction false} AnyTerm(engine: Engine, doc: Doc, key: string, members: seq<string>)
    requires members != []
    ensures Matches(engine, doc, TermsFor(key, members)) <==>
              exists x :: x in Values(doc, key) && AmongTexts(x, members)
  {
    var q := TermsFor(key, members);
    forall i | 0 <= i < |members| ensures q.should[i] == Term(key, members[i], true) && q.should[i] in q.should {
    }
    if Matches(engine, doc, q) {
      var c :| c in q.should && Matches(engine, doc, c);
      var i :| 0 <= i < |members| && c == q.should[i];
      var x :| x in Values(doc, key) && Lower(x) == Lower(members[i]);
      assert AmongTexts(x, members);
    }
    if x :| x in Values(doc, key) && AmongTexts(x, members) {
      var i :| 0 <= i < |members| && Lower(x) == Lower(members[i]);
      assert Matches(engine, doc, q.should[i]);
    }
  }

  /** In the fragment, the translation of a filter matches exactly the documents that pass it. */
  lemma {:induction false} FragmentAgrees(engine: Engine, py: Python, doc: Doc, f: Filter)
    requires InFragment(py, f)
    ensures Translate(py, f).Ok? && Translate(py, f).value.must != []
    ensures Satisfies(engine, doc, Translate(py, f).value) <==> DocPasses(py, doc, f)
  {
    if f.op == In {
      InTranslates(py, f);
      InAgrees(engine, py, doc, f);
      OneMust(engine, doc, TermsFor(f.key, LowerTrimmed(f.value.texts)));
      hide Matches, DocPasses, TermsFor, Satisfies, Translate;
    } else {
      var t := f.value.text;
      var q := Translate(py, f).value.must[0];
      assert Translate(py, f) == Ok(Translated([q], []));
      OneMust(engine, doc, q);
      forall x ensures BucketMatches(py, f.op, x, f.value) <==> ValueMatches(q, x) {
        ValueAgrees(py, f, q, x);
      }
      hide Satisfies, Translate, BucketMatches;
      assert Matches(engine, doc, q) <==> exists x :: x in Values(doc, f.key) && ValueMatches(q, x);
    }
  }

  /** The single-value test of a string clause. */
  ghost predicate ValueMatches(q: Clause, x: string) {
    match q
    case Term(_, text, ci) => if ci then Lower(x) == Lower(text) else x == text
    case Pattern(_, pattern) => Wild(WILDCARD, pattern, x)
    case Prefix(_, text) => StartsWith(Lower(x), Lower(text))
    case _ => false
  }

  lemma {:induction false} ValueAgrees(py: Python, f: Filter, q: Clause, x: string)
    requires InFragment(py, f) && f.op != In && Translate(py, f) == Ok(Translated([q], []))
    ensures (q.Term? || q.Pattern? || q.Prefix?) && q.key == f.key
    ensures BucketMatches(py, f.op, x, f.value) <==> ValueMatches(q, x)
  {
    LowerTwice(f.value.text);
    ContainsPattern(WILDCARD, f.value.text, x);
    EndsPattern(WILDCARD, f.value.text, x);
    hide Wild, Escape, Contains, EndsWith;
  }

  /** A negated filter's translation accepts only passing documents, and all of them but the mixed ones. */
  lemma {:induction false} NegativeIncluded(engine: Engine, py: Python, doc: Doc, f: Filter)
    requires IsNegative(f)
    ensures Translate(py, f).Ok? && Translate(py, f).value.must != []
    ensures Satisfies(engine, doc, Translate(py, f).value) ==> DocPasses(py, doc, f)
    ensures (Satisfies(engine, doc, Translate(py, f).value) <==> DocPasses(py, doc, f)) <==> !IsMixed(py, doc, f)
  {
    if f.op == NotContain {
      var t := f.value.text;
      forall x ensures BucketMatches(py, f.op, x, f.value) <==> !Wild(WILDCARD, ContainsGlob(t), x) {
        ContainsPattern(WILDCARD, t, x);
      }
      hide Wild, Escape, Contains;
    }
    RejectMeaning(engine, py, doc, f, Translate(py, f).value.mustNot[0]);
  }

  lemma {:induction false} RejectMeaning(engine: Engine, py: Python, doc: Doc, f: Filter, c: Clause)
    requires Matches(engine, doc, c) <==> exists x :: x in Values(doc, f.key) && !BucketMatches(py, f.op, x, f.value)
    ensures var t := Translated([Exists(f.key)], [c]);
            && (Satisfies(engine, doc, t) ==> DocPasses(py, doc, f))
            && ((Satisfies(engine, doc, t) <==> DocPasses(py, doc, f)) <==> !IsMixed(py, doc, f))
  {
    var t, values := Translated([Exists(f.key)], [c]), Values(doc, f.key);
    assert Satisfies(engine, doc, t) <==> values != [] && !Matches(engine, doc, c) by {
      assert Matches(engine, doc, Exists(f.key)) <==> values != [];
      hide Matches;
      assert Exists(f.key) in t.must && c in t.mustNot;
    }
    hide Matches, BucketMatches, Satisfies;
    if values != [] && !Matches(engine, doc, c) {
      assert values[0] in values && BucketMatches(py, f.op, values[0], f.value);
    }
  }

  /** A field with at most one value is never mixed. */
  lemma {:induction false} SingleValuedIsNotMixed(py: Python, doc: Doc, f: Filter)
    requires |Values(doc, f.key)| <= 1
    ensures !IsMixed(py, doc, f)
  {
    hide BucketMatches;
  }

  /** `empty` goes the other way: the query also accepts documents without the field. */
  lemma {:induction false} EmptyIsWider(engine: Engine, py: Python, doc: Doc, f: Filter)
    requires f.op == Empty && f.key != ""
    ensures Translate(py, f).Ok?
    ensures Satisfies(engine, doc, Translate(py, f).value) <==> DocPasses(py, doc, f) || Values(doc, f.key) == []
  {
    var q := Translate(py, f).value.must[0];
    var absent, blank := Bool([], [Exists(f.key)], [], []), Term(f.key, "", false);
    assert q == AnyOf([absent, blank]) && absent in q.should && blank in q.should;
    assert Matches(engine, doc, absent) <==> Values(doc, f.key) == [] by {
      assert Exists(f.key) in absent.mustNot;
    }
    assert Matches(engine, doc, q) <==> Matches(engine, doc, absent) || Matches(engine, doc, blank);
    assert DocPasses(py, doc, f) <==> Matches(engine, doc, blank);
  }

  /**
   The comment in the source that `not contains` agrees on multi-valued fields does not hold:
   a document with the values "a" and "b" passes `not contains a` in memory and not in the query.
   */
  lemma {:induction false} NotContainsDiffersOnMixedField(engine: Engine, py: Python)
    ensures var doc, f := Doc("d", "kb", [("tag", ["a", "b"])]), Filter("tag", NotContain, One("a"));
            Translate(py, f).Ok? && DocPasses(py, doc, f) && !Satisfies(engine, doc, Translate(py, f).value)
  {
    var doc, f := Doc("d", "kb", [("tag", ["a", "b"])]), Filter("tag", NotContain, One("a"));
    assert Values(doc, "tag") == ["a", "b"];
    assert "a" in Values(doc, "tag") && "b" in Values(doc, "tag");
    assert Lower("a") == "a" && Lower("b") == "b";
    assert Contains("a", "a") && !Contains("b", "a") by {
      assert "b"[1..] == "" && "b"[0] != "a"[0];
    }
    assert !BucketMatches(py, f.op, "a", f.value) && BucketMatches(py, f.op, "b", f.value);
    NegativeIncluded(engine, py, doc, f);
  }

  // ----- the whole request -----

  lemma {:induction false} PlanIsPointwise(py: Python, filters: seq<Filter>)
    requires forall f :: f in filters ==> Translate(py, f).Ok?
    ensures Plan(py, filters).Ok? && |Plan(py, filters).value| == |filters|
    ensures forall i :: 0 <= i < |filters| ==> Plan(py, filters).value[i] == Translate(py, filters[i]).value
  {
    hide Translate;
    if filters != [] {
      PlanIsPointwise(py, filters[1..]);
    }
  }

  /** The query accepts a document that satisfies the translations of all filters, or of some filter. */
  lemma {:induction false} RequestMeaning(
      engine: Engine, py: Python, doc: Doc, filters: seq<Filter>, logic: string, kbIds: seq<string>)
    requires filters != [] && forall f :: f in filters ==> Translate(py, f).Ok? && Translate(py, f).value.must != []
    ensures Plan(py, filters).Ok?
    ensures Matches(engine, doc, ToQuery(Plan(py, filters).value, logic, kbIds)) <==>
              && doc.kb in kbIds
              && (if logic == "or" then exists f :: f in filters && Satisfies(engine, doc, Translate(py, f).value)
                  else forall f :: f in filters ==> Satisfies(engine, doc, Translate(py, f).value))
  {
    PlanIsPointwise(py, filters);
    var plan := Plan(py, filters).value;
    hide Plan, Translate, Satisfies, Matches, ToQuery;
    forall t | t in plan ensures t.must != [] && exists f :: f in filters && t == Translate(py, f).value {
      var i :| 0 <= i < |plan| && plan[i] == t;
      assert filters[i] in filters;
    }
    forall f | f in filters ensures Translate(py, f).value in plan {
      var i :| 0 <= i < |filters| && filters[i] == f;
      assert plan[i] in plan;
    }
    QueryMeaning(engine, doc, plan, logic, kbIds);
  }

  // ----- main results -----

  ghost predicate ValidLogic(logic: string) {
    logic == "and" || logic == "or"
  }

  /**
   For every non-empty list of filters in the fragment, under either logic, the query matches
   exactly the documents of the knowledge bases that the in-memory filter selects; a negated
   filter may join in as long as the document's field is not mixed.
   */
  lemma {:induction false} PushdownAgrees(
      engine: Engine, py: Python, doc: Doc, filters: seq<Filter>, logic: string, kbIds: seq<string>)
    requires filters != [] && ValidLogic(logic)
    requires forall f :: f in filters ==> InFragment(py, f) || (IsNegative(f) && !IsMixed(py, doc, f))
    ensures Plan(py, filters).Ok?
    ensures Matches(engine, doc, ToQuery(Plan(py, filters).value, logic, kbIds))
       <==> doc.kb in kbIds && DocSelected(py, doc, filters, logic)
  {
    forall f | f in filters
      ensures Translate(py, f).Ok? && Translate(py, f).value.must != []
      ensures Satisfies(engine, doc, Translate(py, f).value) <==> DocPasses(py, doc, f)
    {
      hide Translate, Satisfies, InFragment, DocPasses, IsMixed, IsNegative;
      if InFragment(py, f) {
        FragmentAgrees(engine, py, doc, f);
      } else {
        NegativeIncluded(engine, py, doc, f);
      }
    }
    hide Plan, Translate, Satisfies, Matches, DocPasses, ToQuery, InFragment, IsMixed;
    RequestMeaning(engine, py, doc, filters, logic, kbIds);
  }

  /** With negated filters on any documents, the query still matches only selected documents. */
  lemma {:induction false} PushdownIncluded(
      engine: Engine, py: Python, doc: Doc, filters: seq<Filter>, logic: string, kbIds: seq<string>)
    requires filters != [] && ValidLogic(logic)
    requires forall f :: f in filters ==> InFragment(py, f) || IsNegative(f)
    ensures Plan(py, filters).Ok?
    ensures Matches(engine, doc, ToQuery(Plan(py, filters).value, logic, kbIds)) ==>
              doc.kb in kbIds && DocSelected(py, doc, filters, logic)
  {
    forall f | f in filters
      ensures Translate(py, f).Ok? && Translate(py, f).value.must != []
      ensures Satisfies(engine, doc, Translate(py, f).value) ==> DocPasses(py, doc, f)
    {
      hide Translate, Satisfies, InFragment, DocPasses, IsMixed, IsNegative;
      if InFragment(py, f) {
        FragmentAgrees(engine, py, doc, f);
      } else {
        NegativeIncluded(engine, py, doc, f);
      }
    }
    hide Plan, Translate, Satisfies, Matches, DocPasses, ToQuery, InFragment, IsNegative;
    RequestMeaning(engine, py, doc, filters, logic, kbIds);
  }

  // ----- the router -----

  function InScope(docs: seq<Doc>, kbIds: seq<string>): seq<Doc> {
    if docs == [] then []
    else (if docs[0].kb in kbIds then [docs[0]] else []) + InScope(docs[1..], kbIds)
  }

  lemma {:induction false} InScopeMembers(docs: seq<Doc>, kbIds: seq<string>, doc: Doc)
    ensures doc in InScope(docs, kbIds) <==> doc in docs && doc.kb in kbIds
  {
    if docs != [] {
      InScopeMembers(docs[1..], kbIds, doc);
    }
  }

  /** The guard or the translator turns the request down. */
  ghost predicate Refused(py: Python, filters: seq<Filter>, logic: string) {
    !ValidLogic(logic) || (exists f :: f in filters && !Supported(f)) || Plan(py, filters).Err?
  }

  function HitIds(engine: Engine, docs: seq<Doc>, query: Clause): set<string> {
    set doc | doc in docs && Matches(engine, doc, query) :: doc.id
  }

  /** The push-down attempt; no result means the caller must fall back. */
  method FilterByPushdown(
      engine: Engine, py: Python, docs: seq<Doc>, kbIds: seq<string>, filters: seq<Filter>, logic: string, limit: nat)
    returns (hits: Option<set<string>>)
    ensures Refused(py, filters, logic) ==> hits.None?
    ensures hits.None? && !Refused(py, filters, logic) ==>
              |HitIds(engine, docs, ToQuery(Plan(py, filters).value, logic, kbIds))| > limit
    ensures hits.Some? ==>
              forall id :: id in hits.value <==>
                exists doc ::
                  && doc in docs && doc.id == id
                  && Matches(engine, doc, ToQuery(Plan(py, filters).value, logic, kbIds))
  {
    var supported := IsPushdownSupported(filters);
    if !supported {
      return None;
    }
    var plan := PlanPushdown(py, filters, logic);
    if plan.Err? {
      return None;
    }
    var query := ToQuery(plan.value, logic, kbIds);
    var ids := HitIds(engine, docs, query);
    return if |ids| > limit then None else Some(ids);
  }

  /** What the in-memory filter selects among the documents of the knowledge bases. */
  ghost predicate PassesInMemory(
      py: Python, docs: seq<Doc>, kbIds: seq<string>, filters: seq<Filter>, logic: string, id: string) {
    exists doc :: doc in docs && doc.kb in kbIds && doc.id == id && DocSelected(py, doc, filters, logic)
  }

  /** On these documents the translation of the filter is exact. */
  ghost predicate IsExact(py: Python, docs: seq<Doc>, f: Filter) {
    InFragment(py, f) || (IsNegative(f) && forall doc :: doc in docs ==> !IsMixed(py, doc, f))
  }

  /**
   `_run_metadata_filter`: push-down when it answers, in memory otherwise. If the request is refused
   or every filter is exact on the documents, the result is what the in-memory filter selects,
   whichever path is taken; with other negative filters nothing else is selected.
   */
  method RunMetadataFilter(
      engine: Engine, py: Python, docs: seq<Doc>, kbIds: seq<string>, filters: seq<Filter>, logic: string, limit: nat)
    returns (r: set<string>)
    requires UniqueIds(docs) && forall doc :: doc in docs ==> WellFormedDoc(doc)
    ensures Refused(py, filters, logic) || (forall f :: f in filters ==> IsExact(py, docs, f)) ==>
              forall id :: id in r <==> PassesInMemory(py, docs, kbIds, filters, logic, id)
    ensures (forall f :: f in filters ==> InFragment(py, f) || IsNegative(f)) ==>
              forall id :: id in r ==> PassesInMemory(py, docs, kbIds, filters, logic, id)
  {
    if filters != [] && kbIds != [] {
      var hits := FilterByPushdown(engine, py, docs, kbIds, filters, logic, limit);
      if hits.Some? {
        r := hits.value;
        HitsAgree(engine, py, docs, kbIds, filters, logic, r);
        return;
      }
    }
    r := FilterInMemory(py, docs, kbIds, filters, logic);
  }

  lemma {:induction false} HitsAgree(
      engine: Engine, py: Python, docs: seq<Doc>, kbIds: seq<string>, filters: seq<Filter>, logic: string,
      hits: set<string>)
    requires filters != [] && !Refused(py, filters, logic)
    requires forall id :: id in hits <==>
               exists doc ::
                 && doc in docs && doc.id == id
                 && Matches(engine, doc, ToQuery(Plan(py, filters).value, logic, kbIds))
    ensures (forall f :: f in filters ==> IsExact(py, docs, f)) ==>
              forall id :: id in hits <==> PassesInMemory(py, docs, kbIds, filters, logic, id)
    ensures (forall f :: f in filters ==> InFragment(py, f) || IsNegative(f)) ==>
              forall id :: id in hits ==> PassesInMemory(py, docs, kbIds, filters, logic, id)
  {
    var query := ToQuery(Plan(py, filters).value, logic, kbIds);
    hide Matches, ToQuery, Plan, InFragment, IsNegative, IsMixed, DocSelected;
    if forall f :: f in filters ==> IsExact(py, docs, f) {
      forall doc | doc in docs
        ensures Matches(engine, doc, query) <==> doc.kb in kbIds && DocSelected(py, doc, filters, logic)
      {
        PushdownAgrees(engine, py, doc, filters, logic, kbIds);
      }
    }
    if forall f :: f in filters ==> InFragment(py, f) || IsNegative(f) {
      forall doc | doc in docs
        ensures Matches(engine, doc, query) ==> doc.kb in kbIds && DocSelected(py, doc, filters, logic)
      {
        PushdownIncluded(engine, py, doc, filters, logic, kbIds);
      }
    }
  }

  method FilterInMemory(
      py: Python, docs: seq<Doc>, kbIds: seq<string>, filters: seq<Filter>, logic: string) returns (r: set<string>)
    requires UniqueIds(docs) && forall doc :: doc in docs ==> WellFormedDoc(doc)
    ensures forall id :: id in r <==> PassesInMemory(py, docs, kbIds, filters, logic, id)
  {
    var scope := InScope(docs, kbIds);
    forall doc ensures doc in scope <==> doc in docs && doc.kb in kbIds {
      InScopeMembers(docs, kbIds, doc);
    }
    hide InScope;
    var metas := FlattenMetadata(scope);
    r := MetaFilter.Run(py, metas, filters, logic);
    forall id ensures Selected(py, metas, filters, logic, id)
                 <==> exists doc :: doc in scope && doc.id == id && DocSelected(py, doc, filters, logic) {
      SelectedMeaning(py, metas, scope, filters, logic, id);
    }
  }

  /** Without filters the query would match every document and the in-memory filter none: the guard matters. */
  lemma {:induction false} EmptyRequestsDiffer(engine: Engine, py: Python, doc: Doc, logic: string, kbIds: seq<string>)
    requires doc.kb in kbIds
    ensures Matches(engine, doc, ToQuery([], logic, kbIds)) && !DocSelected(py, doc, [], logic)
  {
    var q := ToQuery([], logic, kbIds);
    assert q.filter == [KbIn(kbIds)];
  }
}
