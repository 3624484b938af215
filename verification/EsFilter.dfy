/**
 The translation of metadata filters into Elasticsearch queries (common/metadata_es_filter.py),
 and what those queries match. The evaluator reads a string field through its `.keyword`
 sub-field, which holds every value of the field whole.
 */
module EsFilter {
  import opened Wrappers
  import opened Dicts
  import opened Text
  import opened Wildcard
  import opened MetaFilter

  // ----- queries -----

  datatype Clause =
    | Exists(key: string)
    | Term(key: string, text: string, caseInsensitive: bool)
    | TermLiteral(key: string, literal: Literal)
    | Pattern(key: string, pattern: string)
    | Prefix(key: string, text: string)
    | KbIn(kbIds: seq<string>)
    | Bool(must: seq<Clause>, mustNot: seq<Clause>, should: seq<Clause>, filter: seq<Clause>)

  /** What a term on a numeric or boolean value matches is the engine's business. */
  datatype Engine = Engine(matchesLiteral: (Literal, seq<string>) -> bool)

  /** Whether a document matches; a bool with `should` asks for at least one of them. */
  predicate Matches(engine: Engine, doc: Doc, q: Clause)
    decreases q
  {
    match q
    case Exists(key) => Values(doc, key) != []
    case Term(key, text, ci) => exists x :: x in Values(doc, key) && (if ci then Lower(x) == Lower(text) else x == text)
    case TermLiteral(key, literal) => engine.matchesLiteral(literal, Values(doc, key))
    case Pattern(key, pattern) => exists x :: x in Values(doc, key) && Wild(WILDCARD, pattern, x)
    case Prefix(key, text) => exists x :: x in Values(doc, key) && StartsWith(Lower(x), Lower(text))
    case KbIn(kbIds) => doc.kb in kbIds
    case Bool(must, mustNot, should, filter) =>
      && (forall c :: c in must ==> Matches(engine, doc, c))
      && (forall c :: c in filter ==> Matches(engine, doc, c))
      && (forall c :: c in mustNot ==> !Matches(engine, doc, c))
      && (should == [] || exists c :: c in should && Matches(engine, doc, c))
  }

  // ----- translating one filter -----

  datatype Translated = Translated(must: seq<Clause>, mustNot: seq<Clause>)

  datatype Unsupported = MissingKey | NoScalar | EmptyText | EmptyList | UnknownLogic

  function CoerceScalar(py: Python, value: FilterValue): Result<Literal, Unsupported> {
    if !value.One? then Err(NoScalar)
    else
      var s := Trim(value.text);
      if IsDate(s) then Ok(LitText(s))
      else match py.literal(s)
           case None => Ok(LitText(Lower(s)))
           case Some(LitText(t)) => Ok(LitText(Lower(t)))
           case Some(LitNumber(tag)) => Ok(LitNumber(tag))
           case Some(_) => Ok(LitText(Lower(s)))
  }

  function CoerceString(value: FilterValue): Result<string, Unsupported> {
    if !value.One? then Err(NoScalar) else if value.text == "" then Err(EmptyText) else Ok(value.text)
  }

  /** The non-blank parts of a comma-separated string, trimmed. */
  function CsvParts(parts: seq<string>): seq<string> {
    if parts == [] then []
    else (if Trim(parts[0]) == "" then [] else [Trim(parts[0])]) + CsvParts(parts[1..])
  }

  function LowerTrimmed(texts: seq<string>): seq<string> {
    seq(|texts|, i requires 0 <= i < |texts| => Trim(Lower(texts[i])))
  }

  function CsvOrList(py: Python, value: FilterValue): Result<seq<string>, Unsupported> {
    if value.NoValue? then Err(NoScalar)
    else
      var members :=
        if value.Many? then value.texts
        else match py.literal(value.text)
             case Some(LitTexts(ts)) => ts
             case _ => CsvParts(Split(value.text, ','));
      if members == [] then Err(EmptyList) else Ok(LowerTrimmed(members))
  }

  /** `_csv_or_list` */
  method ReadMembers(py: Python, value: FilterValue) returns (r: Result<seq<string>, Unsupported>)
    ensures r == CsvOrList(py, value)
  {
    if value.NoValue? {
      return Err(NoScalar);
    }
    var members: seq<string>;
    if value.Many? {
      members := value.texts;
    } else {
      var literal := py.literal(value.text);
      if literal.Some? && literal.value.LitTexts? {
        members := literal.value.texts;
      } else {
        members := ReadCsv(Split(value.text, ','));
      }
    }
    if members == [] {
      return Err(EmptyList);
    }
    var normalised := [];
    for i := 0 to |members|
      invariant |normalised| == i && forall k :: 0 <= k < i ==> normalised[k] == Trim(Lower(members[k]))
    {
      normalised := normalised + [Trim(Lower(members[i]))];
    }
    assert normalised == LowerTrimmed(members);
    return Ok(normalised);
  }

  method ReadCsv(parts: seq<string>) returns (members: seq<string>)
    ensures members == CsvParts(parts)
  {
    members := [];
    assert parts[0..] == parts;
    for i := 0 to |parts|
      invariant CsvParts(parts) == members + CsvParts(parts[i..])
    {
      assert parts[i..][0] == parts[i] && parts[i..][1..] == parts[i + 1..];
      if Trim(parts[i]) != "" {
        members := members + [Trim(parts[i])];
      }
    }
  }

  function TermOrMatch(key: string, value: Literal): Clause {
    if value.LitText? then Term(key, value.text, true) else TermLiteral(key, value)
  }

  function ContainsGlob(t: string): string {
    "*" + Escape(WILDCARD, t) + "*"
  }

  function EndsGlob(t: string): string {
    "*" + Escape(WILDCARD, t)
  }

  function AnyOf(clauses: seq<Clause>): Clause {
    Bool([], [], clauses, [])
  }

  function TermsFor(key: string, members: seq<string>): Clause {
    AnyOf(seq(|members|, i requires 0 <= i < |members| => Term(key, members[i], true)))
  }

  function Translate(py: Python, f: Filter): Result<Translated, Unsupported> {
    if f.key == "" then Err(MissingKey)
    else match f.op
      case Empty =>
        Ok(Translated([AnyOf([Bool([], [Exists(f.key)], [], []), Term(f.key, "", false)])], []))
      case NotEmpty =>
        Ok(Translated([Exists(f.key)], [Term(f.key, "", false)]))
      case Equal => (match CoerceScalar(py, f.value)
        case Ok(v) => Ok(Translated([TermOrMatch(f.key, v)], []))
        case Err(e) => Err(e))
      case NotEqual => (match CoerceScalar(py, f.value)
        case Ok(v) => Ok(Translated([Exists(f.key)], [TermOrMatch(f.key, v)]))
        case Err(e) => Err(e))
      case In => (match CsvOrList(py, f.value)
        case Ok(ms) => Ok(Translated([TermsFor(f.key, ms)], []))
        case Err(e) => Err(e))
      case NotIn => (match CsvOrList(py, f.value)
        case Ok(ms) => Ok(Translated([Exists(f.key)], [TermsFor(f.key, ms)]))
        case Err(e) => Err(e))
      case Contain => (match CoerceString(f.value)
        case Ok(t) => Ok(Translated([Pattern(f.key, ContainsGlob(t))], []))
        case Err(e) => Err(e))
      case NotContain => (match CoerceString(f.value)
        case Ok(t) => Ok(Translated([Exists(f.key)], [Pattern(f.key, ContainsGlob(t))]))
        case Err(e) => Err(e))
      case StartWith => (match CoerceString(f.value)
        case Ok(t) => Ok(Translated([Prefix(f.key, t)], []))
        case Err(e) => Err(e))
      case EndWith => (match CoerceString(f.value)
        case Ok(t) => Ok(Translated([Pattern(f.key, EndsGlob(t))], []))
        case Err(e) => Err(e))
  }

  // ----- the whole request -----

  function ToClauses(t: Translated): seq<Clause> {
    if t.must == [] && t.mustNot == [] then []
    else if t.mustNot == [] then if |t.must| == 1 then t.must else [Bool(t.must, [], [], [])]
    else [Bool(t.must, t.mustNot, [], [])]
  }

  function AllClauses(plan: seq<Translated>): seq<Clause> {
    if plan == [] then [] else ToClauses(plan[0]) + AllClauses(plan[1..])
  }

  function ToQuery(plan: seq<Translated>, logic: string, kbIds: seq<string>): Clause {
    if plan == [] then Bool([], [], [], [KbIn(kbIds)])
    else
      var inner := if logic == "or" then Bool([], [], AllClauses(plan), []) else Bool(AllClauses(plan), [], [], []);
      Bool([], [], [], [KbIn(kbIds), inner])
  }

  /** Every filter's translation, in order, or the first refusal. */
  function Plan(py: Python, filters: seq<Filter>): Result<seq<Translated>, Unsupported> {
    if filters == [] then Ok([])
    else match Translate(py, filters[0])
         case Err(e) => Err(e)
         case Ok(t) => match Plan(py, filters[1..]) case Err(e) => Err(e) case Ok(ts) => Ok([t] + ts)
  }

  method PlanPushdown(
      py: Python, filters: seq<Filter>, logic: string) returns (plan: Result<seq<Translated>, Unsupported>)
    ensures plan == if logic != "and" && logic != "or" then Err(UnknownLogic) else Plan(py, filters)
  {
    if logic != "and" && logic != "or" {
      return Err(UnknownLogic);
    }
    var translated := [];
    assert filters[0..] == filters;
    assert forall ts: seq<Translated> :: [] + ts == ts;
    for i := 0 to |filters|
      invariant Plan(py, filters)
           == match Plan(py, filters[i..]) case Err(e) => Err(e) case Ok(ts) => Ok(translated + ts)
    {
      assert filters[i..][0] == filters[i] && filters[i..][1..] == filters[i + 1..];
      var t := Translate(py, filters[i]);
      if t.Err? {
        return Err(t.error);
      }
      ghost var rest := Plan(py, filters[i + 1..]);
      if rest.Ok? {
        assert translated + ([t.value] + rest.value) == translated + [t.value] + rest.value;
      }
      translated := translated + [t.value];
    }
    assert filters[|filters|..] == [] && translated + [] == translated;
    return Ok(translated);
  }

  /** Operators whose negation is per bucket are left to the in-memory filter. */
  predicate Supported(f: Filter) {
    f.op != NotEqual && f.op != NotIn && f.key != ""
  }

  method IsPushdownSupported(filters: seq<Filter>) returns (ok: bool)
    ensures ok <==> forall f :: f in filters ==> f.op != NotEqual && f.op != NotIn && f.key != ""
    ensures ok <==> forall f :: f in filters ==> Supported(f)
  {
    for i := 0 to |filters|
      invariant forall f :: f in filters[..i] ==> Supported(f)
    {
      if !Supported(filters[i]) {
        return false;
      }
      assert filters[..i + 1] == filters[..i] + [filters[i]];
    }
    assert filters[..|filters|] == filters && forall f :: f in filters ==> Supported(f);
    return true;
  }

  // ----- structure lemmas -----

  lemma {:induction false} ClausesAreAtomic(engine: Engine, doc: Doc, t: Translated)
    requires t.must != []
    ensures |ToClauses(t)| == 1
    ensures Matches(engine, doc, ToClauses(t)[0]) <==>
              && (forall c :: c in t.must ==> Matches(engine, doc, c))
              && (forall c :: c in t.mustNot ==> !Matches(engine, doc, c))
  {
    if t.mustNot == [] && |t.must| == 1 {
      assert forall c :: c in t.must <==> c == t.must[0];
    }
  }

  /** A document satisfies one translated filter. */
  ghost predicate Satisfies(engine: Engine, doc: Doc, t: Translated) {
    (forall c :: c in t.must ==> Matches(engine, doc, c)) && (forall c :: c in t.mustNot ==> !Matches(engine, doc, c))
  }

  lemma {:induction false} AllClausesMatch(engine: Engine, doc: Doc, plan: seq<Translated>)
    requires forall t :: t in plan ==> t.must != []
    ensures (forall c :: c in AllClauses(plan) ==> Matches(engine, doc, c))
       <==> forall t :: t in plan ==> Satisfies(engine, doc, t)
    ensures (exists c :: c in AllClauses(plan) && Matches(engine, doc, c))
       <==> exists t :: t in plan && Satisfies(engine, doc, t)
    ensures |AllClauses(plan)| == |plan|
  {
    if plan != [] {
      var head, rest := plan[0], plan[1..];
      AllClausesMatch(engine, doc, rest);
      ClausesAreAtomic(engine, doc, head);
      assert Satisfies(engine, doc, head) <==> Matches(engine, doc, ToClauses(head)[0]);
      hide Matches, Satisfies, ToClauses;
      assert AllClauses(plan) == ToClauses(head) + AllClauses(rest);
      assert forall t :: t in plan <==> t == head || t in rest;
      assert forall c :: c in ToClauses(head) <==> c == ToClauses(head)[0];
    }
  }

  /** The query matches a document of the knowledge bases that satisfies all filters, or some filter. */
  lemma {:induction false} QueryMeaning(
      engine: Engine, doc: Doc, plan: seq<Translated>, logic: string, kbIds: seq<string>)
    requires plan != [] && forall t :: t in plan ==> t.must != []
    ensures Matches(engine, doc, ToQuery(plan, logic, kbIds)) <==>
              && doc.kb in kbIds
              && (if logic == "or" then exists t :: t in plan && Satisfies(engine, doc, t)
                  else forall t :: t in plan ==> Satisfies(engine, doc, t))
  {
    AllClausesMatch(engine, doc, plan);
    hide Satisfies, AllClauses, Wild;
    var inner := if logic == "or" then Bool([], [], AllClauses(plan), []) else Bool(AllClauses(plan), [], [], []);
    var q := ToQuery(plan, logic, kbIds);
    TwoFilters(engine, doc, KbIn(kbIds), inner);
    assert q == Bool([], [], [], [KbIn(kbIds), inner]);
    assert AllClauses(plan) != [];
  }

  lemma {:induction false} TwoFilters(engine: Engine, doc: Doc, a: Clause, b: Clause)
    ensures Matches(engine, doc, Bool([], [], [], [a, b])) <==> Matches(engine, doc, a) && Matches(engine, doc, b)
  {
    var q := Bool([], [], [], [a, b]);
    assert a in q.filter && b in q.filter;
  }
}
