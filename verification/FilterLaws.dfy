/** What the operators of the in-memory filter say of one value, and which of them are complements. */
module FilterLaws {
  import opened Wrappers
  import opened Text
  import opened MetaFilter
  import opened EsFilter
  import opened Pushdown

  /** A date is compared with a value that is none, so the record is skipped. */
  predicate IsSkipped(input: string, value: FilterValue) {
    value.One? && IsDate(Trim(value.text)) && !IsDate(Trim(input))
  }

  // ----- complements -----

  /** Exactly one of `=` and `≠` matches, unless a date meets something else; then neither does. */
  lemma {:induction false} EqualOrNot(py: Python, input: string, value: FilterValue)
    ensures IsSkipped(input, value) ==>
              !BucketMatches(py, Equal, input, value) && !BucketMatches(py, NotEqual, input, value)
    ensures !IsSkipped(input, value) ==>
              (BucketMatches(py, NotEqual, input, value) <==> !BucketMatches(py, Equal, input, value))
  {
    hide Trim, IsDate, Lower, Contains;
  }

  /** For a text or a list exactly one of `in` and `not in` matches; without a value neither does. */
  lemma {:induction false} InOrNot(py: Python, input: string, value: FilterValue)
    ensures value.NoValue? ==> !BucketMatches(py, In, input, value) && !BucketMatches(py, NotIn, input, value)
    ensures !value.NoValue? ==>
              (BucketMatches(py, NotIn, input, value) <==> !BucketMatches(py, In, input, value))
  {
    hide Lower, Contains;
  }

  /** The same for `contains` and `not contains`, which need a text, and for `empty` and `not empty`. */
  lemma {:induction false} ContainsOrNot(py: Python, input: string, value: FilterValue)
    ensures !value.One? ==> !BucketMatches(py, Contain, input, value) && !BucketMatches(py, NotContain, input, value)
    ensures value.One? ==>
              (BucketMatches(py, NotContain, input, value) <==> !BucketMatches(py, Contain, input, value))
    ensures BucketMatches(py, Empty, input, value) <==> input == ""
    ensures BucketMatches(py, NotEmpty, input, value) <==> input != ""
  {
    hide Lower, Contains;
  }

  // ----- what the positive operators say -----

  /** Equality of texts, of dates, of literals, and with a value that is no text. */
  lemma {:induction false} EqualMeans(py: Python, input: string, text: string)
    ensures !IsDate(Trim(text)) && (py.literal(text).None? || py.literal(input).None?) ==>
              (BucketMatches(py, Equal, input, One(text)) <==> Lower(input) == Lower(text))
    ensures IsDate(Trim(text)) && IsDate(Trim(input)) ==>
              (BucketMatches(py, Equal, input, One(text)) <==> Trim(input) == Trim(text))
    ensures !IsDate(Trim(text)) && py.literal(text).Some? && py.literal(input).Some? ==>
              var a, b := py.literal(input).value, py.literal(text).value;
              (BucketMatches(py, Equal, input, One(text)) <==>
                 a == b || (a.LitText? && b.LitText? && Lower(a.text) == Lower(b.text)))
    ensures BucketMatches(py, Equal, input, NoValue) <==> py.literal(input) == Some(LitNone)
    ensures forall texts :: BucketMatches(py, Equal, input, Many(texts)) <==> py.literal(input) == Some(LitTexts(texts))
  {
    hide Trim, IsDate, Contains;
  }

  /** Substring, prefix and suffix, without regard to case. */
  lemma {:induction false} TextOperators(py: Python, input: string, text: string)
    ensures BucketMatches(py, Contain, input, One(text)) <==> exists i :: OccursAt(Lower(input), Lower(text), i)
    ensures BucketMatches(py, StartWith, input, One(text)) <==> OccursAt(Lower(input), Lower(text), 0)
    ensures BucketMatches(py, EndWith, input, One(text)) <==> OccursAt(Lower(input), Lower(text), |input| - |text|)
  {
    ContainsIffOccurs(Lower(input), Lower(text));
    LowerTwice(text);
    hide Contains;
    var a, b := Lower(input), Lower(text);
    assert |b| <= |a| ==> a[|a| - |b|..] == a[|a| - |b|..|a|];
    assert OccursAt(a, b, 0) <==> b <= a;
  }

  /** A value that is no text stands for what Python shows of it. */
  lemma {:induction false} ShownOperators(py: Python, input: string, texts: seq<string>)
    ensures BucketMatches(py, StartWith, input, NoValue) <==> BucketMatches(py, StartWith, input, One("none"))
    ensures BucketMatches(py, EndWith, input, NoValue) <==> BucketMatches(py, EndWith, input, One("none"))
    ensures BucketMatches(py, StartWith, input, Many(texts))
       <==> BucketMatches(py, StartWith, input, One(py.show(LowerAll(texts))))
    ensures BucketMatches(py, EndWith, input, Many(texts))
       <==> BucketMatches(py, EndWith, input, One(py.show(LowerAll(texts))))
  {
    assert Lower("None") == "none" == Lower("none");
    LowerTwice(py.show(LowerAll(texts)));
    LowerTwice("none");
    hide Lower;
  }

  /** Membership in a list by lower-cased equality; in a text, as a part of it. */
  lemma {:induction false} MembershipMeans(py: Python, input: string, texts: seq<string>, text: string)
    ensures BucketMatches(py, In, input, Many(texts))
       <==> exists i :: 0 <= i < |texts| && Lower(input) == Lower(texts[i])
    ensures BucketMatches(py, In, input, One(text)) <==> exists i :: OccursAt(Lower(text), Lower(input), i)
  {
    MemberOfLowered(texts, Lower(input));
    ContainsIffOccurs(Lower(text), Lower(input));
    hide Contains, Lower;
  }

  // ----- documents -----

  /** So `≠` with a text that is neither date nor literal selects the documents with another value. */
  lemma {:induction false} NotEqualSelects(py: Python, doc: Doc, key: string, text: string)
    requires !IsDate(Trim(text)) && py.literal(text).None?
    ensures DocPasses(py, doc, Filter(key, NotEqual, One(text)))
       <==> exists x :: x in Values(doc, key) && Lower(x) != Lower(text)
  {
    forall x ensures BucketMatches(py, NotEqual, x, One(text)) <==> Lower(x) != Lower(text) {
      EqualOrNot(py, x, One(text));
      EqualMeans(py, x, text);
    }
    hide BucketMatches, Values, Lower, Trim, IsDate;
  }

  /** And `not in` with a list selects the documents with a value outside the list. */
  lemma {:induction false} NotInSelects(py: Python, doc: Doc, key: string, texts: seq<string>)
    ensures DocPasses(py, doc, Filter(key, NotIn, Many(texts)))
       <==> exists x :: x in Values(doc, key) && forall i :: 0 <= i < |texts| ==> Lower(x) != Lower(texts[i])
  {
    forall x
      ensures BucketMatches(py, NotIn, x, Many(texts)) <==> forall i :: 0 <= i < |texts| ==> Lower(x) != Lower(texts[i])
    {
      InOrNot(py, x, Many(texts));
      MembershipMeans(py, x, texts, "");
    }
    hide BucketMatches, Values, Lower;
  }

  // ----- the members of a comma-separated value -----

  /** The members are the parts between the commas, trimmed, without the blank ones, in order. */
  lemma {:induction false} CsvPartsAre(a: seq<string>, b: seq<string>, part: string)
    ensures CsvParts(a + b) == CsvParts(a) + CsvParts(b)
    ensures CsvParts([part]) == if Trim(part) == "" then [] else [Trim(part)]
  {
    assert [part][1..] == [];
    if a == [] {
      assert a + b == b;
    } else {
      assert (a + b)[1..] == a[1..] + b;
      CsvPartsAre(a[1..], b, part);
    }
  }

  /** No list, an empty one, or nothing but blanks between the commas. */
  predicate LacksMembers(py: Python, value: FilterValue) {
    match value
    case NoValue => true
    case Many(texts) => texts == []
    case One(text) =>
      if py.literal(text).Some? && py.literal(text).value.LitTexts? then py.literal(text).value.texts == []
      else forall part :: part in Split(text, ',') ==> Trim(part) == ""
  }

  /** Which values have no members, and what the members of a list are. */
  lemma {:induction false} MembersAre(py: Python, value: FilterValue)
    ensures CsvOrList(py, value).Err? <==> LacksMembers(py, value)
    ensures value.Many? && value.texts != [] ==>
              && CsvOrList(py, value).Ok? && |CsvOrList(py, value).value| == |value.texts|
              && forall i :: 0 <= i < |value.texts| ==> CsvOrList(py, value).value[i] == Trim(Lower(value.texts[i]))
    ensures value.One? ==>
              var l := py.literal(value.text);
              var members := if l.Some? && l.value.LitTexts? then l.value.texts else CsvParts(Split(value.text, ','));
              CsvOrList(py, value) == CsvOrList(py, Many(members))
  {
    if value.One? {
      NoCsvParts(Split(value.text, ','));
    }
    hide Split, Trim, Lower, CsvParts;
  }

  lemma {:induction false} NoCsvParts(parts: seq<string>)
    ensures CsvParts(parts) == [] <==> forall part :: part in parts ==> Trim(part) == ""
  {
    hide Trim;
    if parts != [] {
      NoCsvParts(parts[1..]);
      assert parts[0] in parts && forall part :: part in parts <==> part == parts[0] || part in parts[1..];
    }
  }
}
