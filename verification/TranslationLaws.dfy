/** Which filters the two translations refuse, and what their translations say, operator by operator. */
module TranslationLaws {
  import opened Wrappers
  import opened Text
  import opened MetaFilter
  import opened EsFilter
  import InfinityFilter
  import FilterLaws
  import Pushdown

  // ----- the Elasticsearch translation -----

  /** A missing key, or a value the operator cannot work with. */
  predicate IsUntranslatable(py: Python, f: Filter) {
    || f.key == ""
    || ((f.op == Equal || f.op == NotEqual) && !f.value.One?)
    || ((f.op == In || f.op == NotIn) && FilterLaws.LacksMembers(py, f.value))
    || ((f.op == Contain || f.op == NotContain || f.op == StartWith || f.op == EndWith)
        && (!f.value.One? || f.value.text == ""))
  }

  lemma {:induction false} RefusedIff(py: Python, f: Filter)
    ensures Translate(py, f).Err? <==> IsUntranslatable(py, f)
  {
    FilterLaws.MembersAre(py, f.value);
    hide FilterLaws.LacksMembers, Trim, IsDate, Lower, CsvOrList, ContainsGlob, EndsGlob, TermsFor;
  }

  lemma {:induction false} PlanFailsIff(py: Python, filters: seq<Filter>)
    ensures Plan(py, filters).Err? <==> exists f :: f in filters && Translate(py, f).Err?
  {
    hide Translate;
    if filters != [] {
      PlanFailsIff(py, filters[1..]);
      assert forall f :: f in filters <==> f == filters[0] || f in filters[1..];
    }
  }

  /**
   A whole request is left to the in-memory filter exactly for another logic than and and or, for a
   filter with `≠` or `not in`, or for one that cannot be translated.
   */
  lemma {:induction false} LeftToMemoryIff(py: Python, filters: seq<Filter>, logic: string)
    ensures Pushdown.Refused(py, filters, logic) <==>
              || (logic != "and" && logic != "or")
              || exists f :: f in filters && (f.op == NotEqual || f.op == NotIn || IsUntranslatable(py, f))
  {
    PlanFailsIff(py, filters);
    forall f ensures Translate(py, f).Err? <==> IsUntranslatable(py, f) {
      RefusedIff(py, f);
    }
    assert forall f: Filter :: f.key == "" ==> IsUntranslatable(py, f);
    hide Translate, IsUntranslatable, Plan;
  }

  /** Some value of the field is the text, whatever its case. */
  ghost predicate HasText(doc: Doc, key: string, text: string) {
    exists x :: x in Values(doc, key) && Lower(x) == Lower(text)
  }

  /** What a translated equality asks of a document: a date or a text among the values, or a typed value. */
  ghost predicate MeansEqual(py: Python, engine: Engine, doc: Doc, key: string, text: string) {
    var s := Trim(text);
    if IsDate(s) then HasText(doc, key, s)
    else match py.literal(s)
         case Some(LitText(t)) => HasText(doc, key, t)
         case Some(LitNumber(tag)) => engine.matchesLiteral(LitNumber(tag), Values(doc, key))
         case _ => HasText(doc, key, s)
  }

  lemma {:induction false} TermMeans(engine: Engine, doc: Doc, key: string, text: string)
    ensures Matches(engine, doc, Term(key, text, true)) <==> HasText(doc, key, text)
    ensures Matches(engine, doc, Term(key, Lower(text), true)) <==> HasText(doc, key, text)
    ensures Matches(engine, doc, Exists(key)) <==> Values(doc, key) != []
  {
    assert Lower(Lower(text)) == Lower(text);
    hide Lower, Values;
  }

  /** Equality, and its negation, which also asks for the field. */
  lemma {:induction false} EqualityMeans(py: Python, engine: Engine, doc: Doc, key: string, text: string)
    requires key != ""
    ensures var t := Translate(py, Filter(key, Equal, One(text)));
            t.Ok? && (Satisfies(engine, doc, t.value) <==> MeansEqual(py, engine, doc, key, text))
    ensures var t := Translate(py, Filter(key, NotEqual, One(text)));
            t.Ok? && (Satisfies(engine, doc, t.value)
                      <==> Values(doc, key) != [] && !MeansEqual(py, engine, doc, key, text))
  {
    var v := CoerceScalar(py, One(text));
    assert v.Ok?;
    EqualClause(py, engine, doc, key, text);
    TermMeans(engine, doc, key, text);
    hide CoerceScalar, Trim, IsDate, Lower, Values, MeansEqual, Matches, TermOrMatch;
    var clause := TermOrMatch(key, v.value);
    assert Translate(py, Filter(key, Equal, One(text))).value == Translated([clause], []);
    assert Translate(py, Filter(key, NotEqual, One(text))).value == Translated([Exists(key)], [clause]);
    hide Translate;
    OneAndNot(engine, doc, Exists(key), clause);
  }

  lemma {:induction false} EqualClause(py: Python, engine: Engine, doc: Doc, key: string, text: string)
    ensures CoerceScalar(py, One(text)).Ok?
    ensures Matches(engine, doc, TermOrMatch(key, CoerceScalar(py, One(text)).value))
       <==> MeansEqual(py, engine, doc, key, text)
  {
    var s := Trim(text);
    TermMeans(engine, doc, key, s);
    if py.literal(s).Some? && py.literal(s).value.LitText? {
      TermMeans(engine, doc, key, py.literal(s).value.text);
    }
    hide Trim, IsDate, Lower, Values, HasText;
  }

  lemma {:induction false} OneAndNot(engine: Engine, doc: Doc, a: Clause, b: Clause)
    ensures Satisfies(engine, doc, Translated([b], [])) <==> Matches(engine, doc, b)
    ensures Satisfies(engine, doc, Translated([a], [b])) <==> Matches(engine, doc, a) && !Matches(engine, doc, b)
  {
    hide Matches;
    assert a in [a] && b in [b];
  }

  /** Membership, and its negation, which also asks for the field. */
  lemma {:induction false} MembershipMeans(py: Python, engine: Engine, doc: Doc, key: string, value: FilterValue)
    requires key != "" && CsvOrList(py, value).Ok?
    ensures var t := Translate(py, Filter(key, In, value));
            t.Ok? && (Satisfies(engine, doc, t.value) <==> HasMember(doc, key, CsvOrList(py, value).value))
    ensures var t := Translate(py, Filter(key, NotIn, value));
            t.Ok? && (Satisfies(engine, doc, t.value)
                      <==> Values(doc, key) != [] && !HasMember(doc, key, CsvOrList(py, value).value))
  {
    var members := CsvOrList(py, value).value;
    assert members != [];
    TermsMean(engine, doc, key, members);
    TermMeans(engine, doc, key, "");
    hide CsvOrList, Lower, Values, HasMember, Matches, TermsFor;
    var clause := TermsFor(key, members);
    assert Translate(py, Filter(key, In, value)).value == Translated([clause], []);
    assert Translate(py, Filter(key, NotIn, value)).value == Translated([Exists(key)], [clause]);
    hide Translate;
    OneAndNot(engine, doc, Exists(key), clause);
  }

  ghost predicate HasMember(doc: Doc, key: string, members: seq<string>) {
    exists i :: 0 <= i < |members| && HasText(doc, key, members[i])
  }

  lemma {:induction false} TermsMean(engine: Engine, doc: Doc, key: string, members: seq<string>)
    requires members != []
    ensures Matches(engine, doc, TermsFor(key, members)) <==> HasMember(doc, key, members)
  {
    forall i | 0 <= i < |members|
      ensures Matches(engine, doc, Term(key, members[i], true)) <==> HasText(doc, key, members[i])
    {
      TermMeans(engine, doc, key, members[i]);
    }
    hide HasText, Lower, Values;
    var terms := seq(|members|, i requires 0 <= i < |members| => Term(key, members[i], true));
    assert TermsFor(key, members) == Bool([], [], terms, []);
    if HasMember(doc, key, members) {
      var i :| 0 <= i < |members| && HasText(doc, key, members[i]);
      assert terms[i] in terms;
    }
  }

  // ----- the Infinity translation -----

  const LOWER := "abcdefghijklmnopqrstuvwxyz"
  const UPPER := "ABCDEFGHIJKLMNOPQRSTUVWXYZ"
  const DIGITS := "0123456789"

  predicate IsLetter(c: char) {
    c in LOWER || c in UPPER || c == '_'
  }

  lemma {:induction false} LowerIff(c: char)
    ensures 'a' <= c <= 'z' <==> c in LOWER
  {
    if 'a' <= c <= 'z' {
      assert LOWER[c as int - 'a' as int] == c;
    }
  }

  lemma {:induction false} UpperIff(c: char)
    ensures 'A' <= c <= 'Z' <==> c in UPPER
  {
    if 'A' <= c <= 'Z' {
      assert UPPER[c as int - 'A' as int] == c;
    }
  }

  lemma {:induction false} DigitIff(c: char)
    ensures '0' <= c <= '9' <==> c in DIGITS
  {
    if '0' <= c <= '9' {
      assert DIGITS[c as int - '0' as int] == c;
    }
  }

  lemma {:induction false} KeyCharIff(c: char)
    ensures InfinityFilter.IsKeyStart(c) <==> IsLetter(c)
    ensures InfinityFilter.IsKeyChar(c) <==> IsLetter(c) || c in DIGITS
  {
    LowerIff(c);
    UpperIff(c);
    DigitIff(c);
  }

  /** A letter or underscore, then letters, underscores and digits. */
  predicate IsIdentifier(key: string) {
    key != "" && IsLetter(key[0]) && forall i :: 0 <= i < |key| ==> IsLetter(key[i]) || key[i] in DIGITS
  }

  /** Keys are identifiers; one final newline is let by. */
  lemma {:induction false} KeysAreIdentifiers(key: string)
    ensures InfinityFilter.ValidKey(key) <==>
              IsIdentifier(key) || exists k :: key == k + "\n" && IsIdentifier(k)
  {
    forall c
      ensures InfinityFilter.IsKeyStart(c) <==> IsLetter(c)
      ensures InfinityFilter.IsKeyChar(c) <==> IsLetter(c) || c in DIGITS
    {
      KeyCharIff(c);
    }
    assert !InfinityFilter.IsKeyChar('\n');
    hide InfinityFilter.IsKeyStart, InfinityFilter.IsKeyChar, IsLetter;
    var k := InfinityFilter.WithoutFinalNewline(key);
    assert k != key ==> key == k + "\n";
    forall k' | key == k' + "\n" ensures k' == k {
      assert key[..|key| - 1] == k';
    }
  }

  lemma {:induction false} TrimOff(a: string, s: string, b: string)
    requires All(a, IsSpace) && All(b, IsSpace) && Trim(s) == s
    ensures Trim(a + s + b) == s
    decreases |a| + |b|
  {
    if a != "" {
      assert a[0] in a && (a + s + b)[1..] == a[1..] + s + b;
      TrimOff(a[1..], s, b);
    } else if s == "" && b != "" {
      assert b[0] in b && (a + s + b)[1..] == a + s + b[1..];
      TrimOff(a, s, b[1..]);
    } else if b != "" {
      var n := |b| - 1;
      assert b[n] in b && (a + s + b)[..|a + s + b| - 1] == a + s + b[..n];
      TrimOff(a, s, b[..n]);
    } else {
      assert a + s + b == s;
    }
  }

  /** White space around a value does not make a number a text, or a text a number. */
  lemma {:induction false} PaddingIsIgnored(x: InfinityFilter.Interpreter, a: string, s: string, b: string)
    requires All(a, IsSpace) && All(b, IsSpace) && Trim(s) == s
    ensures InfinityFilter.Coerce(x, a + s + b)
         == if x.numeral(s).Some? then InfinityFilter.Coerce(x, s) else InfinityFilter.Textual(a + s + b)
  {
    TrimOff(a, s, b);
  }

  /** A request is refused exactly for a key that is no identifier or a value its operator cannot work with. */
  lemma {:induction false} RequestRefusedIff(x: InfinityFilter.Interpreter, r: InfinityFilter.Request)
    ensures InfinityFilter.Fragment(x, r).Err? <==>
              || !InfinityFilter.ValidKey(r.key)
              || match r.operator
                 case Range(_) => r.value.NoValue?
                 case Plain(Empty) => false
                 case Plain(NotEmpty) => false
                 case Plain(Equal) => !r.value.One?
                 case Plain(NotEqual) => !r.value.One?
                 case Plain(In) => FilterLaws.LacksMembers(x.py, r.value)
                 case Plain(NotIn) => FilterLaws.LacksMembers(x.py, r.value)
                 case Plain(Contain) => r.value == NoValue || r.value == One("") || r.value == Many([])
                 case Plain(_) => !r.value.One? || r.value.text == ""
  {
    FilterLaws.MembersAre(x.py, r.value);
    hide FilterLaws.LacksMembers, InfinityFilter.ValidKey, Trim, CsvOrList, InfinityFilter.RangeText,
         InfinityFilter.Coerce;
    hide InfinityFilter.ContainsText, InfinityFilter.NotContainsText, InfinityFilter.InText, InfinityFilter.NotInText;
    hide InfinityFilter.StringField, InfinityFilter.CoerceAll;
  }
}
