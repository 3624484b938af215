/** The whole Infinity condition, from the strings the program joins to what the engine answers. */
module InfinityQuery {
  import opened Wrappers
  import opened Text
  import opened MetaFilter
  import opened Sql
  import opened InfinityFilter
  import opened InfinityMeaning

  // ----- the condition behind the joined string -----

  ghost function Chains(x: Interpreter, rs: seq<Request>): seq<Ands>
    requires Fragments(x, rs).Ok? && WritesNumerals(x)
  {
    if rs == [] then [] else [Chain(x, rs[0])] + Chains(x, rs[1..])
  }

  lemma {:induction false} ChainsWritten(x: Interpreter, rs: seq<Request>)
    requires Fragments(x, rs).Ok? && WritesNumerals(x)
    ensures |Chains(x, rs)| == |rs| && WriteChains(Chains(x, rs), Fragments(x, rs).value)
  {
    if rs != [] {
      ChainsWritten(x, rs[1..]);
      FragmentWritten(x, rs[0]);
      hide Fragment, Chain, AndsText, ValidAnds, WriteChains;
      FirstWritten(Chain(x, rs[0]), Fragment(x, rs[0]).value, Chains(x, rs[1..]), Fragments(x, rs[1..]).value);
    }
  }

  lemma {:induction false} FirstWritten(a: Ands, text: string, chains: seq<Ands>, texts: seq<string>)
    requires AndsText(a) == text && ValidAnds(a) && WriteChains(chains, texts)
    ensures WriteChains([a] + chains, [text] + texts)
  {
    hide AndsText, ValidAnds;
  }

  ghost predicate Satisfies(x: Interpreter, row: Row, r: Request) {
    Fragment(x, r).Ok? && Means(x, row, r)
  }

  /** The requests as a whole, stated without SQL. */
  ghost predicate Asks(x: Interpreter, row: Row, rs: seq<Request>, logic: string) {
    if logic == "and" then forall r :: r in rs ==> Satisfies(x, row, r) else exists r :: r in rs && Satisfies(x, row, r)
  }

  lemma {:induction false} ChainAt(x: Interpreter, row: Row, rs: seq<Request>, i: nat)
    requires Fragments(x, rs).Ok? && WritesNumerals(x) && i < |rs|
    ensures |Chains(x, rs)| == |rs|
    ensures EvalAnds(c => Holds(row, c), Chains(x, rs)[i]) <==> Satisfies(x, row, rs[i])
  {
    ChainsWritten(x, rs);
    if i == 0 {
      FragmentMeaning(x, row, rs[0]);
    } else {
      ChainAt(x, row, rs[1..], i - 1);
    }
  }

  lemma {:induction false} ChainsMeaning(x: Interpreter, row: Row, rs: seq<Request>)
    requires Fragments(x, rs).Ok? && WritesNumerals(x)
    ensures (forall a :: a in Chains(x, rs) ==> EvalAnds(c => Holds(row, c), a))
       <==> forall r :: r in rs ==> Satisfies(x, row, r)
    ensures (exists a :: a in Chains(x, rs) && EvalAnds(c => Holds(row, c), a))
       <==> exists r :: r in rs && Satisfies(x, row, r)
  {
    ChainsWritten(x, rs);
    var chains := Chains(x, rs);
    forall i | 0 <= i < |rs| ensures EvalAnds(c => Holds(row, c), chains[i]) <==> Satisfies(x, row, rs[i]) {
      ChainAt(x, row, rs, i);
    }
    hide *;
    SameTruths(chains, rs, a => EvalAnds(c => Holds(row, c), a), r => Satisfies(x, row, r));
  }

  lemma {:induction false} SameTruths<A, B>(xs: seq<A>, ys: seq<B>, p: A -> bool, q: B -> bool)
    requires |xs| == |ys| && forall i :: 0 <= i < |xs| ==> (p(xs[i]) <==> q(ys[i]))
    ensures (forall a :: a in xs ==> p(a)) <==> forall b :: b in ys ==> q(b)
    ensures (exists a :: a in xs && p(a)) <==> exists b :: b in ys && q(b)
  {
  }

  /** Under AND the chains run together into one; under OR each stays an alternative. */
  ghost function Condition(x: Interpreter, rs: seq<Request>, logic: string): Expr
    requires rs != [] && Fragments(x, rs).Ok? && WritesNumerals(x)
  {
    ChainsWritten(x, rs);
    Group(if logic == "and" then LastOr(AllOf(Chains(x, rs))) else OrsOf(Chains(x, rs)))
  }

  lemma {:induction false} ConditionWritten(x: Interpreter, rs: seq<Request>, logic: string)
    requires rs != [] && Build(x, rs, logic).Ok? && WritesNumerals(x)
    ensures ExprText(Condition(x, rs, logic)) == Build(x, rs, logic).value && Valid(Condition(x, rs, logic))
  {
    ChainsWritten(x, rs);
    var chains := Chains(x, rs);
    hide Fragments, Chains, WriteChains, Join;
    if logic == "and" {
      AllOfWritten(chains, Fragments(x, rs).value);
      assert OrsText(LastOr(AllOf(chains))) == AndsText(AllOf(chains));
      assert ValidOrs(LastOr(AllOf(chains))) <==> ValidAnds(AllOf(chains));
    } else {
      OrsOfWritten(chains, Fragments(x, rs).value);
    }
  }

  lemma {:induction false} ConditionMeaning(x: Interpreter, row: Row, rs: seq<Request>, logic: string)
    requires rs != [] && Build(x, rs, logic).Ok? && WritesNumerals(x)
    ensures Eval(c => Holds(row, c), Condition(x, rs, logic)) <==> Asks(x, row, rs, logic)
  {
    var holds := c => Holds(row, c);
    ChainsWritten(x, rs);
    ChainsMeaning(x, row, rs);
    var chains := Chains(x, rs);
    hide Fragments, Chains, WriteChains, Join, Holds, Satisfies;
    if logic == "and" {
      EvalAllOf(holds, chains);
      assert EvalOrs(holds, LastOr(AllOf(chains))) <==> EvalAnds(holds, AllOf(chains));
    } else {
      EvalOrsOf(holds, chains);
    }
    assert Eval(holds, Condition(x, rs, logic)) <==> EvalOrs(holds, Condition(x, rs, logic).alts);
  }

  // ----- main results -----

  /**
   The built string, lexed and parsed with NOT before AND before OR, holds for exactly the rows that
   satisfy all the filters, or some filter; this includes `not in`, whose chain has no parentheses.
   */
  lemma {:induction false} BuildKeepsMeaning(x: Interpreter, row: Row, rs: seq<Request>, logic: string)
    requires rs != [] && Build(x, rs, logic).Ok? && WritesNumerals(x)
    ensures Parse(Build(x, rs, logic).value).Some?
    ensures EvalOrs(c => Holds(row, c), Parse(Build(x, rs, logic).value).value) <==> Asks(x, row, rs, logic)
  {
    var e := Condition(x, rs, logic);
    ConditionWritten(x, rs, logic);
    ConditionMeaning(x, row, rs, logic);
    var whole := LastOr(LastAnd(e));
    Alone(c => Holds(row, c), e);
    hide *;
    ParseWritten(whole);
  }

  lemma {:induction false} Alone(holds: Atom -> bool, e: Expr)
    ensures OrsText(LastOr(LastAnd(e))) == ExprText(e) && (ValidOrs(LastOr(LastAnd(e))) <==> Valid(e))
    ensures EvalOrs(holds, LastOr(LastAnd(e))) <==> Eval(holds, e)
  {
    assert OrsText(LastOr(LastAnd(e))) == AndsText(LastAnd(e));
    assert ValidOrs(LastOr(LastAnd(e))) <==> ValidAnds(LastAnd(e));
    assert EvalOrs(holds, LastOr(LastAnd(e))) <==> EvalAnds(holds, LastAnd(e));
  }

  // ----- the condition sent to the engine -----

  function KbAtom(kbIds: seq<string>): Atom {
    Atom("kb_id", [], Within(seq(|kbIds|, i requires 0 <= i < |kbIds| => Literal(kbIds[i]))))
  }

  lemma {:induction false} IdsWritten(values: seq<Operand>, texts: seq<string>)
    requires |values| == |texts| && forall i :: 0 <= i < |values| ==> texts[i] == OperandText(values[i])
    ensures OperandsText(values) == Join(", ", texts)
  {
    hide OperandText;
    if |values| > 1 {
      IdsWritten(values[1..], texts[1..]);
    }
  }

  lemma {:induction false} KbWritten(kbIds: seq<string>)
    requires kbIds != []
    ensures ExprText(Leaf(KbAtom(kbIds))) == "kb_id IN (" + Join(", ", QuotedIds(kbIds)) + ")"
  {
    var a := KbAtom(kbIds);
    IdsWritten(a.tail.values, QuotedIds(kbIds));
    hide OperandText, OperandsText, Join, QuotedIds;
    assert ExprText(Leaf(a)) == AtomText(a);
    KbText(OperandsText(a.tail.values));
  }

  lemma {:induction false} KbText(ids: string)
    ensures "kb_id" + (" IN (" + ids + ")") == "kb_id IN (" + ids + ")"
  {
    assert "kb_id IN (" == "kb_id" + " IN (";
  }

  lemma {:induction false} KbValid(kbIds: seq<string>)
    requires kbIds != []
    ensures Valid(Leaf(KbAtom(kbIds)))
  {
    FixedNames();
    hide IsName;
    assert ValidAtom(KbAtom(kbIds));
  }

  /** The filter part: the condition of the requests, or the comparison `1=1` when there are none. */
  ghost function FilterExpr(x: Interpreter, rs: seq<Request>, logic: string): Expr
    requires Build(x, rs, logic).Ok? && WritesNumerals(x)
  {
    if rs == [] then Leaf(Atom("1", [], Compare("=", Name("1")))) else Condition(x, rs, logic)
  }

  lemma {:induction false} FilterWritten(x: Interpreter, row: Row, rs: seq<Request>, logic: string)
    requires Build(x, rs, logic).Ok? && WritesNumerals(x)
    ensures ExprText(FilterExpr(x, rs, logic)) == Build(x, rs, logic).value && Valid(FilterExpr(x, rs, logic))
    ensures Eval(c => Holds(row, c), FilterExpr(x, rs, logic)) <==> rs == [] || Asks(x, row, rs, logic)
  {
    if rs == [] {
      var a := Atom("1", [], Compare("=", Name("1")));
      FixedNames();
      hide IsName;
      assert TailText(a.tail, "") == "" + "=" + "" + "1";
      assert ExprText(Leaf(a)) == AtomText(a) == "1=1";
      assert Eval(c => Holds(row, c), Leaf(a)) <==> Holds(row, a);
      assert ValidAtom(a);
    } else {
      ConditionWritten(x, rs, logic);
      ConditionMeaning(x, row, rs, logic);
    }
  }

  /** The whole condition holds for exactly the rows of the knowledge bases that the filters ask for. */
  lemma {:induction false} WhereKeepsMeaning(
      x: Interpreter, row: Row, rs: seq<Request>, logic: string, kbIds: seq<string>)
    requires kbIds != [] && Build(x, rs, logic).Ok? && WritesNumerals(x)
    ensures Parse(Where(kbIds, Build(x, rs, logic).value)).Some?
    ensures EvalOrs(c => Holds(row, c), Parse(Where(kbIds, Build(x, rs, logic).value)).value)
       <==> row.kb in kbIds && (rs == [] || Asks(x, row, rs, logic))
  {
    var kb, e := Leaf(KbAtom(kbIds)), FilterExpr(x, rs, logic);
    FilterWritten(x, row, rs, logic);
    KbWritten(kbIds);
    KbValid(kbIds);
    KbHolds(row, kbIds);
    Both(c => Holds(row, c), kb, e);
    hide Build, FilterExpr, Asks, Holds, Eval, EvalOrs, ExprText, Valid, OrsText, Join, QuotedIds, Parse, KbAtom;
    WhereText("kb_id IN (" + Join(", ", QuotedIds(kbIds)), Build(x, rs, logic).value);
    ParseWritten(LastOr(And(kb, LastAnd(e))));
  }

  lemma {:induction false} WhereText(ids: string, filter: string)
    ensures ids + ")" + " AND " + filter == ids + ") AND " + filter
  {
    assert ")" + " AND " == ") AND ";
  }

  lemma {:induction false} KbHolds(row: Row, kbIds: seq<string>)
    ensures Eval(c => Holds(row, c), Leaf(KbAtom(kbIds))) <==> row.kb in kbIds
  {
    var a := KbAtom(kbIds);
    assert Eval(c => Holds(row, c), Leaf(a)) <==> Holds(row, a);
    if row.kb in kbIds {
      var i :| 0 <= i < |kbIds| && kbIds[i] == row.kb;
      assert a.tail.values[i] == Literal(row.kb);
    }
  }

  lemma {:induction false} Both(holds: Atom -> bool, a: Expr, b: Expr)
    ensures OrsText(LastOr(And(a, LastAnd(b)))) == ExprText(a) + " AND " + ExprText(b)
    ensures ValidOrs(LastOr(And(a, LastAnd(b)))) <==> Valid(a) && Valid(b)
    ensures EvalOrs(holds, LastOr(And(a, LastAnd(b)))) <==> Eval(holds, a) && Eval(holds, b)
  {
    var chain := And(a, LastAnd(b));
    assert OrsText(LastOr(chain)) == AndsText(chain) && AndsText(LastAnd(b)) == ExprText(b);
    assert ValidOrs(LastOr(chain)) <==> ValidAnds(chain);
    assert ValidAnds(chain) <==> Valid(a) && ValidAnds(LastAnd(b));
    assert EvalOrs(holds, LastOr(chain)) <==> EvalAnds(holds, chain);
    assert EvalAnds(holds, chain) <==> Eval(holds, a) && EvalAnds(holds, LastAnd(b));
  }

  // ----- negative operators -----

  /** As the engine reads them, the fragments of `in` and `not in` are complementary. */
  lemma {:induction false} NotInNegatesIn(x: Interpreter, row: Row, key: string, value: FilterValue)
    requires ValidKey(key) && Members(x, value).Ok? && WritesNumerals(x)
    ensures var positive := Fragment(x, Request(key, Plain(In), value)).value;
            var negative := Fragment(x, Request(key, Plain(NotIn), value)).value;
            && Parse(positive).Some? && Parse(negative).Some?
            && (EvalOrs(c => Holds(row, c), Parse(negative).value)
                <==> !EvalOrs(c => Holds(row, c), Parse(positive).value))
  {
    var p, n := Request(key, Plain(In), value), Request(key, Plain(NotIn), value);
    hide Parse, EvalOrs, Holds, Includes, Members, ValidKey, InText, NotInText;
    FragmentParses(x, row, p);
    FragmentParses(x, row, n);
  }

  lemma {:induction false} FragmentParses(x: Interpreter, row: Row, r: Request)
    requires Fragment(x, r).Ok? && WritesNumerals(x)
    ensures Parse(Fragment(x, r).value).Some?
    ensures EvalOrs(c => Holds(row, c), Parse(Fragment(x, r).value).value) <==> Means(x, row, r)
  {
    var chain := Chain(x, r);
    FragmentWritten(x, r);
    FragmentMeaning(x, row, r);
    assert OrsText(LastOr(chain)) == AndsText(chain);
    assert ValidOrs(LastOr(chain)) <==> ValidAnds(chain);
    assert EvalOrs(c => Holds(row, c), LastOr(chain)) <==> EvalAnds(c => Holds(row, c), chain);
    ParseWritten(LastOr(chain));
    hide Fragment, Parse, EvalOrs, EvalAnds, Means, Holds;
  }

  /**
   `not contains` is the negation of `contains` on every row exactly when the text is no number:
   `contains` looks for the number then, and `not contains` for the string.
   */
  lemma {:induction false} NotContainsNegatesContains(x: Interpreter, key: string, t: string)
    requires ValidKey(key) && t != ""
    ensures (forall row ::
               var negative, positive := Request(key, Plain(NotContain), One(t)), Request(key, Plain(Contain), One(t));
               Means(x, row, negative) <==> !Means(x, row, positive))
       <==> x.numeral(Trim(t)).None?
  {
    var row := Row("", (path: string, argument: Operand) => argument.Name?, path => "", path => 0.0,
                   (a, b) => false, numeral => 0.0, atom => false);
    assert Shown(x.py, One(t)) == t;
    if x.numeral(Trim(t)).Some? {
      assert Means(x, row, Request(key, Plain(Contain), One(t)));
      assert Means(x, row, Request(key, Plain(NotContain), One(t)));
    }
  }
}
