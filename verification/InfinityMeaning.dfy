/** What the Infinity conditions mean once the engine has lexed and parsed them. */
module InfinityMeaning {
  import opened Wrappers
  import opened Text
  import opened Wildcard
  import opened MetaFilter
  import opened Sql
  import opened InfinityFilter

  // ----- rows and the meaning of a filter -----

  /**
   A row of the metadata table: its knowledge base, what JSON_CONTAINS answers for a path and an
   argument, the strings and numbers that the extracting functions read, the engine's order of
   strings and its reading of numerals, and the answers to all other atoms.
   */
  datatype Row = Row(kb: string, contains: (string, Operand) -> bool, text: string -> string, number: string -> real,
                     precedes: (string, string) -> bool, numeral: string -> real, other: Atom -> bool)

  predicate IsOrderOp(op: string) {
    op == "<" || op == ">" || op == "<=" || op == ">="
  }

  /** The engine's reading of an atom: equality and order, LIKE, membership, and opaque calls. */
  predicate Holds(row: Row, a: Atom) {
    if a.head == "JSON_CONTAINS" && |a.args| == 3 && a.args[1].Literal? && a.tail.Bare? then
      row.contains(a.args[1].text, a.args[2])
    else if
      && a.head == "JSON_EXTRACT_STRING" && |a.args| == 2 && a.args[1].Literal?
      && a.tail.Compare? && a.tail.right.Literal?
      && (a.tail.op == "=" || a.tail.op == "!=" || a.tail.op == "LIKE")
    then
      var field, right := row.text(a.args[1].text), a.tail.right.text;
      if a.tail.op == "=" then field == right
      else if a.tail.op == "!=" then field != right
      else Wild(LIKE, right, field)
    else if
      && a.head == "JSON_EXTRACT_STRING" && |a.args| == 2 && a.args[1].Literal?
      && a.tail.Compare? && a.tail.right.Literal? && IsOrderOp(a.tail.op)
    then
      var field, right := row.text(a.args[1].text), a.tail.right.text;
      if a.tail.op == "<" then row.precedes(field, right)
      else if a.tail.op == ">" then row.precedes(right, field)
      else if a.tail.op == "<=" then row.precedes(field, right) || field == right
      else row.precedes(right, field) || field == right
    else if
      && a.head == "JSON_EXTRACT_DOUBLE" && |a.args| == 2 && a.args[1].Literal?
      && a.tail.Compare? && a.tail.right.Name? && IsOrderOp(a.tail.op)
    then
      var field, right := row.number(a.args[1].text), row.numeral(a.tail.right.word);
      if a.tail.op == "<" then field < right
      else if a.tail.op == ">" then field > right
      else if a.tail.op == "<=" then field <= right
      else field >= right
    else if a.head == "kb_id" && a.args == [] && a.tail.Within? then Literal(row.kb) in a.tail.values
    else if a.args == [] && a.tail.Compare? && a.tail.op == "=" then a.tail.right == Name(a.head)
    else row.other(a)
  }

  function Argument(c: Coerced): Operand {
    match c case Number(n) => Name(n) case Textual(t) => Literal("\"" + t + "\"")
  }

  predicate Includes(row: Row, key: string, c: Coerced) {
    row.contains("$." + key, Argument(c))
  }

  function Field(row: Row, key: string): string {
    row.text("$." + key)
  }

  function RangeAtom(key: string, op: Comparison, c: Coerced): Atom {
    match c
    case Number(n) =>
      Atom("JSON_EXTRACT_DOUBLE", [Name("meta_fields"), Literal("$." + key)], Compare(Symbol(op), Name(n)))
    case Textual(t) =>
      Atom("JSON_EXTRACT_STRING", [Name("meta_fields"), Literal("$." + key)], Compare(Symbol(op), Literal(t)))
  }

  /** The field exceeds the value by `difference`. */
  predicate IsInRange(op: Comparison, difference: real) {
    match op
    case Greater => difference > 0.0
    case Less => difference < 0.0
    case GreaterEqual => difference >= 0.0
    case LessEqual => difference <= 0.0
  }

  /** The field comes after the value, before it, or is the value. */
  predicate IsInOrder(row: Row, op: Comparison, field: string, value: string) {
    match op
    case Greater => row.precedes(value, field)
    case Less => row.precedes(field, value)
    case GreaterEqual => field == value || row.precedes(value, field)
    case LessEqual => field == value || row.precedes(field, value)
  }

  /** What one accepted filter asks of a row, stated without SQL. */
  predicate Means(x: Interpreter, row: Row, r: Request)
    requires Fragment(x, r).Ok?
  {
    match r.operator
    case Range(op) =>
      (match CoerceRangeValue(x, r.value).value
       case Number(n) => IsInRange(op, row.number("$." + r.key) - row.numeral(n))
       case Textual(t) => IsInOrder(row, op, Field(row, r.key), t))
    case Plain(Empty) => Field(row, r.key) == "\"\""
    case Plain(NotEmpty) => Field(row, r.key) != "\"\""
    case Plain(Equal) => Includes(row, r.key, CoerceScalarValue(x, r.value).value)
    case Plain(NotEqual) => !Includes(row, r.key, CoerceScalarValue(x, r.value).value)
    case Plain(In) => exists m :: m in Members(x, r.value).value && Includes(row, r.key, m)
    case Plain(NotIn) => forall m :: m in Members(x, r.value).value ==> !Includes(row, r.key, m)
    case Plain(Contain) => Includes(row, r.key, Coerce(x, Shown(x.py, r.value)))
    case Plain(NotContain) => !Includes(row, r.key, Textual(r.value.text))
    case Plain(StartWith) => StartsWith(Field(row, r.key), r.value.text)
    case Plain(EndWith) => EndsWith(Field(row, r.key), r.value.text)
  }

  // ----- conditions from lists -----

  function AndsOf(es: seq<Expr>): Ands
    requires es != []
  {
    if |es| == 1 then LastAnd(es[0]) else And(es[0], AndsOf(es[1..]))
  }

  function OrsOf(chains: seq<Ands>): Ors
    requires chains != []
  {
    if |chains| == 1 then LastOr(chains[0]) else Or(chains[0], OrsOf(chains[1..]))
  }

  function Append(a: Ands, b: Ands): Ands {
    match a
    case LastAnd(e) => And(e, b)
    case And(e, more) => And(e, Append(more, b))
  }

  function AllOf(chains: seq<Ands>): Ands
    requires chains != []
  {
    if |chains| == 1 then chains[0] else Append(chains[0], AllOf(chains[1..]))
  }

  function Singles(es: seq<Expr>): seq<Ands> {
    if es == [] then [] else [LastAnd(es[0])] + Singles(es[1..])
  }

  ghost predicate WriteExprs(es: seq<Expr>, texts: seq<string>) {
    |es| == |texts| && forall i :: 0 <= i < |es| ==> texts[i] == ExprText(es[i]) && Valid(es[i])
  }

  ghost predicate WriteChains(chains: seq<Ands>, texts: seq<string>) {
    |chains| == |texts| && forall i :: 0 <= i < |chains| ==> texts[i] == AndsText(chains[i]) && ValidAnds(chains[i])
  }

  lemma {:induction false} AndsOfWritten(es: seq<Expr>, texts: seq<string>)
    requires es != [] && WriteExprs(es, texts)
    ensures AndsText(AndsOf(es)) == Join(" AND ", texts) && ValidAnds(AndsOf(es))
  {
    if |es| > 1 {
      AndsOfWritten(es[1..], texts[1..]);
    }
  }

  lemma {:induction false} OrsOfWritten(chains: seq<Ands>, texts: seq<string>)
    requires chains != [] && WriteChains(chains, texts)
    ensures OrsText(OrsOf(chains)) == Join(" OR ", texts) && ValidOrs(OrsOf(chains))
  {
    if |chains| > 1 {
      OrsOfWritten(chains[1..], texts[1..]);
    }
  }

  lemma {:induction false} AppendWritten(a: Ands, b: Ands)
    ensures AndsText(Append(a, b)) == AndsText(a) + " AND " + AndsText(b)
    ensures ValidAnds(Append(a, b)) <==> ValidAnds(a) && ValidAnds(b)
  {
    if a.And? {
      AppendWritten(a.more, b);
      Regroup(ExprText(a.head), AndsText(a.more), AndsText(b));
    }
  }

  lemma {:induction false} Regroup(a: string, b: string, c: string)
    ensures a + " AND " + (b + " AND " + c) == a + " AND " + b + " AND " + c
  {
  }

  lemma {:induction false} AllOfWritten(chains: seq<Ands>, texts: seq<string>)
    requires chains != [] && WriteChains(chains, texts)
    ensures AndsText(AllOf(chains)) == Join(" AND ", texts) && ValidAnds(AllOf(chains))
  {
    if |chains| > 1 {
      AllOfWritten(chains[1..], texts[1..]);
      AppendWritten(chains[0], AllOf(chains[1..]));
    }
  }

  lemma {:induction false} SinglesWritten(es: seq<Expr>, texts: seq<string>)
    requires WriteExprs(es, texts)
    ensures WriteChains(Singles(es), texts)
  {
    if es != [] {
      SinglesWritten(es[1..], texts[1..]);
    }
  }

  // ----- what they evaluate to -----

  lemma {:induction false} EvalAndsOf(holds: Atom -> bool, es: seq<Expr>)
    requires es != []
    ensures EvalAnds(holds, AndsOf(es)) <==> forall e :: e in es ==> Eval(holds, e)
  {
    if |es| > 1 {
      EvalAndsOf(holds, es[1..]);
      assert EvalAnds(holds, And(es[0], AndsOf(es[1..]))) <==> Eval(holds, es[0]) && EvalAnds(holds, AndsOf(es[1..]));
      hide Eval, EvalAnds;
      assert forall e :: e in es <==> e == es[0] || e in es[1..];
      assert es[0] in es && AndsOf(es) == And(es[0], AndsOf(es[1..]));
    } else {
      assert es == [es[0]];
      assert EvalAnds(holds, LastAnd(es[0])) <==> Eval(holds, es[0]);
    }
  }

  lemma {:induction false} EvalOrsOf(holds: Atom -> bool, chains: seq<Ands>)
    requires chains != []
    ensures EvalOrs(holds, OrsOf(chains)) <==> exists a :: a in chains && EvalAnds(holds, a)
  {
    if |chains| > 1 {
      EvalOrsOf(holds, chains[1..]);
      assert EvalOrs(holds, Or(chains[0], OrsOf(chains[1..])))
        <==> EvalAnds(holds, chains[0]) || EvalOrs(holds, OrsOf(chains[1..]));
      hide EvalAnds, EvalOrs;
      assert forall a :: a in chains <==> a == chains[0] || a in chains[1..];
      assert chains[0] in chains;
    } else {
      assert chains == [chains[0]];
      assert chains[0] in chains && OrsOf(chains) == LastOr(chains[0]);
      assert EvalOrs(holds, LastOr(chains[0])) <==> EvalAnds(holds, chains[0]);
    }
  }

  lemma {:induction false} EvalAppend(holds: Atom -> bool, a: Ands, b: Ands)
    ensures EvalAnds(holds, Append(a, b)) <==> EvalAnds(holds, a) && EvalAnds(holds, b)
  {
    if a.And? {
      EvalAppend(holds, a.more, b);
    }
  }

  lemma {:induction false} EvalAllOf(holds: Atom -> bool, chains: seq<Ands>)
    requires chains != []
    ensures EvalAnds(holds, AllOf(chains)) <==> forall a :: a in chains ==> EvalAnds(holds, a)
  {
    if |chains| > 1 {
      EvalAllOf(holds, chains[1..]);
      EvalAppend(holds, chains[0], AllOf(chains[1..]));
      assert chains == [chains[0]] + chains[1..];
    } else {
      assert chains == [chains[0]];
    }
  }

  lemma {:induction false} EvalSingles(holds: Atom -> bool, es: seq<Expr>)
    ensures |Singles(es)| == |es|
    ensures (exists a :: a in Singles(es) && EvalAnds(holds, a)) <==> exists e :: e in es && Eval(holds, e)
  {
    if es != [] {
      EvalSingles(holds, es[1..]);
      assert EvalAnds(holds, LastAnd(es[0])) <==> Eval(holds, es[0]);
      hide Eval, EvalAnds;
      assert Singles(es) == [LastAnd(es[0])] + Singles(es[1..]);
      assert forall e :: e in es <==> e == es[0] || e in es[1..];
      assert forall a :: a in Singles(es) <==> a == LastAnd(es[0]) || a in Singles(es[1..]);
      assert es[0] in es && LastAnd(es[0]) in Singles(es);
    }
  }

  // ----- literals -----

  lemma {:induction false} NothingToEscape(s: string)
    requires '\'' !in s
    ensures EscapeQuotes(s) == s
  {
    if s != [] {
      NothingToEscape(s[1..]);
      assert s == [s[0]] + s[1..];
    }
  }

  lemma {:induction false} KeyHasNoQuote(key: string)
    requires ValidKey(key)
    ensures EscapeQuotes("$." + key) == "$." + key
  {
    var k := WithoutFinalNewline(key);
    forall i | 0 <= i < |key| ensures key[i] != '\'' {
      assert i < |k| ==> key[i] == k[i];
    }
    NothingToEscape("$." + key);
  }

  lemma {:induction false} EscapeAround(before: string, t: string, after: string)
    requires '\'' !in before && '\'' !in after
    ensures EscapeQuotes(before + t + after) == before + EscapeQuotes(t) + after
  {
    ReplaceCharAppend(before + t, after, '\'', "''");
    ReplaceCharAppend(before, t, '\'', "''");
    NothingToEscape(before);
    NothingToEscape(after);
  }

  // ----- the conditions behind the strings -----

  function ContainsExpr(key: string, c: Coerced): Expr {
    Leaf(Atom("JSON_CONTAINS", [Name("meta_fields"), Literal("$." + key), Argument(c)], Bare))
  }

  function NotContainsExpr(key: string, c: Coerced): Expr {
    Not(ContainsExpr(key, c))
  }

  function FieldExpr(fn: string, key: string, op: string, right: Operand): Expr {
    Leaf(Atom(fn, [Name("meta_fields"), Literal("$." + key)], Compare(op, right)))
  }

  ghost predicate Writable(c: Coerced) {
    c.Number? ==> IsName(c.numeral)
  }

  lemma {:induction false} PathText(key: string)
    requires ValidKey(key)
    ensures OperandText(Literal("$." + key)) == "'$." + key + "'"
  {
    KeyHasNoQuote(key);
    assert "'" + ("$." + key) + "'" == "'$." + key + "'";
  }

  lemma {:induction false} ArgumentText(c: Coerced)
    ensures OperandText(Argument(c)) == match c case Number(n) => n case Textual(t) => "'\"" + EscapeQuotes(t) + "\"'"
  {
    if c.Textual? {
      EscapeAround("\"", c.text, "\"");
      assert "'" + ("\"" + EscapeQuotes(c.text) + "\"") + "'" == "'\"" + EscapeQuotes(c.text) + "\"'";
    }
  }

  lemma {:induction false} TwoOperands(a: Operand, b: Operand)
    ensures OperandsText([a, b]) == OperandText(a) + ", " + OperandText(b)
  {
    hide OperandText;
    assert [a, b][1..] == [b];
  }

  lemma {:induction false} ThreeOperands(a: Operand, b: Operand, c: Operand)
    ensures OperandsText([a, b, c]) == OperandText(a) + ", " + (OperandText(b) + ", " + OperandText(c))
  {
    hide OperandText;
    assert [a, b, c][1..] == [b, c];
    TwoOperands(b, c);
  }

  /** "JSON_CONTAINS(meta_fields, '$.key', argument)" in its parts. */
  lemma {:induction false} CallWithThree(key: string, argument: string)
    ensures "JSON_CONTAINS" + "(" + ("meta_fields" + ", " + ("'$." + key + "'" + ", " + argument)) + ")" + ""
         == "JSON_CONTAINS(meta_fields, '$." + key + "', " + argument + ")"
  {
    assert "JSON_CONTAINS(meta_fields, '$." == "JSON_CONTAINS" + "(" + "meta_fields" + ", " + "'$.";
    assert "', " == "'" + ", ";
  }

  lemma {:induction false} QuotedArgument(key: string, t: string)
    ensures "JSON_CONTAINS(meta_fields, '$." + key + "', " + ("'\"" + t + "\"'") + ")"
         == "JSON_CONTAINS(meta_fields, '$." + key + "', '\"" + t + "\"')"
  {
    assert "', " + ("'\"" + t + "\"'") + ")" == "', '\"" + t + "\"')";
  }

  lemma {:induction false} ContainsValid(key: string, c: Coerced)
    requires Writable(c)
    ensures Valid(ContainsExpr(key, c)) && Valid(NotContainsExpr(key, c))
  {
    FixedNames();
    hide IsName;
    var a := ContainsExpr(key, c).atom;
    assert forall o :: o in a.args ==> o == a.args[0] || o == a.args[1] || o == a.args[2];
    assert ValidAtom(a);
  }

  lemma {:induction false} FixedNames()
    ensures IsName("meta_fields") && IsName("JSON_CONTAINS") && IsName("kb_id") && IsName("1")
    ensures IsName("JSON_EXTRACT_STRING") && IsName("JSON_EXTRACT_DOUBLE")
  {
  }

  lemma {:induction false} FieldText(fn: string, key: string)
    ensures fn + "(" + ("meta_fields" + ", " + ("'$." + key + "'")) + ")" == fn + "(meta_fields, '$." + key + "')"
  {
    assert "(meta_fields, '$." == "(" + "meta_fields" + ", " + "'$.";
  }

  /** A comparison of an extracted field. */
  lemma {:induction false} FieldWritten(fn: string, key: string, op: string, right: Operand)
    requires ValidKey(key)
    ensures ExprText(FieldExpr(fn, key, op, right))
         == fn + "(meta_fields, '$." + key + "')" + (" " + op + " " + OperandText(right))
  {
    PathText(key);
    TwoOperands(Name("meta_fields"), Literal("$." + key));
    FieldText(fn, key);
    assert OperandText(Name("meta_fields")) == "meta_fields";
    hide OperandText, OperandsText, ValidKey;
    var a := FieldExpr(fn, key, op, right).atom;
    assert ExprText(Leaf(a)) == AtomText(a);
  }

  lemma {:induction false} FieldValid(fn: string, key: string, op: string, right: Operand)
    requires IsName(fn) && ValidOperand(right) && (op == "LIKE" || (op != "" && All(op, IsOpChar)))
    ensures Valid(FieldExpr(fn, key, op, right))
  {
    FixedNames();
    hide IsName;
    var a := FieldExpr(fn, key, op, right).atom;
    assert forall o :: o in a.args ==> o == a.args[0] || o == a.args[1];
    assert ValidAtom(a);
  }

  lemma {:induction false} SymbolIsOp(op: Comparison)
    ensures Symbol(op) != "" && All(Symbol(op), IsOpChar)
    ensures Symbol(op) != "=" && Symbol(op) != "!=" && Symbol(op) != "LIKE"
  {
  }

  // ----- membership -----

  function MemberExprs(key: string, members: seq<Coerced>, numbers: bool, write: (string, Coerced) -> Expr): seq<Expr> {
    if members == [] then []
    else
      var n := |members| - 1;
      MemberExprs(key, members[..n], numbers, write)
      + if members[n].Number? == numbers then [write(key, members[n])] else []
  }

  lemma {:induction false} MembersWritten(key: string, members: seq<Coerced>, numbers: bool)
    requires ValidKey(key) && forall m :: m in members ==> Writable(m)
    ensures WriteExprs(MemberExprs(key, members, numbers, ContainsExpr), PartsOf(key, members, numbers, ContainsText))
    ensures WriteExprs(MemberExprs(key, members, numbers, NotContainsExpr),
                       PartsOf(key, members, numbers, NotContainsText))
  {
    if members != [] {
      var n := |members| - 1;
      MembersWritten(key, members[..n], numbers);
      ContainsWritten(key, members[n]);
      ContainsValid(key, members[n]);
      hide ContainsText, NotContainsText, ContainsExpr, NotContainsExpr, ExprText, Valid;
    }
  }

  lemma {:induction false} ContainsWritten(key: string, c: Coerced)
    requires ValidKey(key)
    ensures ContainsText(key, c) == ExprText(ContainsExpr(key, c))
    ensures NotContainsText(key, c) == ExprText(NotContainsExpr(key, c))
  {
    var path := Literal("$." + key);
    PathText(key);
    ArgumentText(c);
    ThreeOperands(Name("meta_fields"), path, Argument(c));
    CallWithThree(key, OperandText(Argument(c)));
    assert OperandText(Name("meta_fields")) == "meta_fields";
    hide OperandText, OperandsText, ValidKey, EscapeQuotes;
    if c.Textual? {
      QuotedArgument(key, EscapeQuotes(c.text));
    }
    assert ExprText(ContainsExpr(key, c)) == AtomText(ContainsExpr(key, c).atom);
    assert ExprText(NotContainsExpr(key, c)) == "NOT " + ExprText(ContainsExpr(key, c));
  }

  /** The bracketed disjunction or conjunction of conditions, if there are any. */
  function Bracket(any: bool, es: seq<Expr>): seq<Expr> {
    if es == [] then [] else [Group(if any then OrsOf(Singles(es)) else LastOr(AndsOf(es)))]
  }

  lemma {:induction false} BracketWritten(any: bool, es: seq<Expr>, texts: seq<string>)
    requires WriteExprs(es, texts)
    ensures WriteExprs(Bracket(any, es), Bracketed(if any then " OR " else " AND ", texts))
  {
    if es != [] {
      if any {
        EvalSingles(_ => true, es);
        SinglesWritten(es, texts);
        OrsOfWritten(Singles(es), texts);
      } else {
        AndsOfWritten(es, texts);
        assert OrsText(LastOr(AndsOf(es))) == AndsText(AndsOf(es));
        assert (ValidOrs(LastOr(AndsOf(es))) <==> ValidAnds(AndsOf(es)));
      }
    }
  }

  lemma {:induction false} WritesBoth(a: seq<Expr>, s: seq<string>, b: seq<Expr>, t: seq<string>)
    requires WriteExprs(a, s) && WriteExprs(b, t)
    ensures WriteExprs(a + b, s + t)
  {
  }

  function Parts(any: bool, strings: seq<Expr>, numbers: seq<Expr>): seq<Expr> {
    Bracket(any, strings) + Bracket(any, numbers)
  }

  lemma {:induction false} SomeKind(key: string, members: seq<Coerced>, write: (string, Coerced) -> Expr)
    requires members != []
    ensures MemberExprs(key, members, false, write) != [] || MemberExprs(key, members, true, write) != []
  {
    var n := |members| - 1;
    assert write(key, members[n]) in MemberExprs(key, members, members[n].Number?, write);
  }

  function InExpr(key: string, members: seq<Coerced>): Expr
    requires members != []
  {
    SomeKind(key, members, ContainsExpr);
    var strings := MemberExprs(key, members, false, ContainsExpr);
    var numbers := MemberExprs(key, members, true, ContainsExpr);
    Group(OrsOf(Singles(Parts(true, strings, numbers))))
  }

  function NotInChain(key: string, members: seq<Coerced>): Ands
    requires members != []
  {
    SomeKind(key, members, NotContainsExpr);
    AndsOf(Parts(false, MemberExprs(key, members, false, NotContainsExpr),
                 MemberExprs(key, members, true, NotContainsExpr)))
  }

  lemma {:induction false} InWritten(key: string, members: seq<Coerced>)
    requires members != [] && ValidKey(key) && forall m :: m in members ==> Writable(m)
    ensures ExprText(InExpr(key, members)) == InText(key, members) && Valid(InExpr(key, members))
  {
    var a, b := MemberExprs(key, members, false, ContainsExpr), MemberExprs(key, members, true, ContainsExpr);
    var s, t := PartsOf(key, members, false, ContainsText), PartsOf(key, members, true, ContainsText);
    MembersWritten(key, members, false);
    MembersWritten(key, members, true);
    BracketWritten(true, a, s);
    BracketWritten(true, b, t);
    SomeKind(key, members, ContainsExpr);
    var es, texts := Bracket(true, a) + Bracket(true, b), Bracketed(" OR ", s) + Bracketed(" OR ", t);
    WritesBoth(Bracket(true, a), Bracketed(" OR ", s), Bracket(true, b), Bracketed(" OR ", t));
    EvalSingles(_ => true, es);
    SinglesWritten(es, texts);
    OrsOfWritten(Singles(es), texts);
    hide MemberExprs, PartsOf, Join, Singles, WriteExprs, WriteChains, OrsText, ValidOrs, Bracketed;
    assert InExpr(key, members) == Group(OrsOf(Singles(es)));
  }

  lemma {:induction false} NotInWritten(key: string, members: seq<Coerced>)
    requires members != [] && ValidKey(key) && forall m :: m in members ==> Writable(m)
    ensures AndsText(NotInChain(key, members)) == NotInText(key, members) && ValidAnds(NotInChain(key, members))
  {
    var a, b := MemberExprs(key, members, false, NotContainsExpr), MemberExprs(key, members, true, NotContainsExpr);
    var s, t := PartsOf(key, members, false, NotContainsText), PartsOf(key, members, true, NotContainsText);
    MembersWritten(key, members, false);
    MembersWritten(key, members, true);
    BracketWritten(false, a, s);
    BracketWritten(false, b, t);
    SomeKind(key, members, NotContainsExpr);
    var es, texts := Bracket(false, a) + Bracket(false, b), Bracketed(" AND ", s) + Bracketed(" AND ", t);
    WritesBoth(Bracket(false, a), Bracketed(" AND ", s), Bracket(false, b), Bracketed(" AND ", t));
    AndsOfWritten(es, texts);
    hide MemberExprs, PartsOf, Join, WriteExprs, AndsText, ValidAnds, Bracketed;
  }

  // ----- what membership evaluates to -----

  lemma {:induction false} EvalBracket(holds: Atom -> bool, es: seq<Expr>)
    ensures (exists e :: e in Bracket(true, es) && Eval(holds, e)) <==> exists e :: e in es && Eval(holds, e)
    ensures (forall e :: e in Bracket(false, es) ==> Eval(holds, e)) <==> forall e :: e in es ==> Eval(holds, e)
  {
    if es != [] {
      EvalSingles(holds, es);
      EvalOrsOf(holds, Singles(es));
      EvalAndsOf(holds, es);
      var any, all := Group(OrsOf(Singles(es))), Group(LastOr(AndsOf(es)));
      assert Eval(holds, any) <==> EvalOrs(holds, any.alts);
      assert Eval(holds, all) <==> EvalOrs(holds, all.alts);
      assert EvalOrs(holds, all.alts) <==> EvalAnds(holds, AndsOf(es));
      hide Eval, EvalOrs, EvalAnds, Singles, OrsOf, AndsOf;
      assert Bracket(true, es) == [any] && Bracket(false, es) == [all];
      assert any in Bracket(true, es) && all in Bracket(false, es);
    }
  }

  lemma {:induction false} EvalMembers(row: Row, key: string, members: seq<Coerced>, numbers: bool)
    ensures (exists e :: e in MemberExprs(key, members, numbers, ContainsExpr) && Eval(a => Holds(row, a), e))
       <==> exists m :: m in members && m.Number? == numbers && Includes(row, key, m)
    ensures (forall e :: e in MemberExprs(key, members, numbers, NotContainsExpr) ==> Eval(a => Holds(row, a), e))
       <==> forall m :: m in members && m.Number? == numbers ==> !Includes(row, key, m)
  {
    var holds := a => Holds(row, a);
    forall m ensures Eval(holds, ContainsExpr(key, m)) <==> Includes(row, key, m)
             ensures Eval(holds, NotContainsExpr(key, m)) <==> !Includes(row, key, m)
    {
      EvalContains(row, key, m);
    }
    hide Eval, Holds, Includes, ContainsExpr, NotContainsExpr;
    EvalEach(holds, key, members, numbers, ContainsExpr, m => Includes(row, key, m));
    EvalEach(holds, key, members, numbers, NotContainsExpr, m => !Includes(row, key, m));
  }

  lemma {:induction false} EvalEach(holds: Atom -> bool, key: string, members: seq<Coerced>, numbers: bool,
                                    write: (string, Coerced) -> Expr, says: Coerced -> bool)
    requires forall m :: Eval(holds, write(key, m)) <==> says(m)
    ensures (exists e :: e in MemberExprs(key, members, numbers, write) && Eval(holds, e))
       <==> exists m :: m in members && m.Number? == numbers && says(m)
    ensures (forall e :: e in MemberExprs(key, members, numbers, write) ==> Eval(holds, e))
       <==> forall m :: m in members && m.Number? == numbers ==> says(m)
  {
    MemberExprsAre(key, members, numbers, write);
    hide Eval, MemberExprs;
  }

  lemma {:induction false} MemberExprsAre(
      key: string, members: seq<Coerced>, numbers: bool, write: (string, Coerced) -> Expr)
    ensures forall e :: e in MemberExprs(key, members, numbers, write) ==>
              exists m :: m in members && m.Number? == numbers && e == write(key, m)
    ensures forall m :: m in members && m.Number? == numbers ==>
              write(key, m) in MemberExprs(key, members, numbers, write)
  {
    if members != [] {
      var n := |members| - 1;
      MemberExprsAre(key, members[..n], numbers, write);
      assert forall m :: m in members <==> m in members[..n] || m == members[n];
    }
  }

  lemma {:induction false} EvalContains(row: Row, key: string, c: Coerced)
    ensures Eval(a => Holds(row, a), ContainsExpr(key, c)) <==> Includes(row, key, c)
    ensures Eval(a => Holds(row, a), NotContainsExpr(key, c)) <==> !Includes(row, key, c)
  {
    var e := ContainsExpr(key, c);
    assert Eval(a => Holds(row, a), e) <==> Holds(row, e.atom);
    assert Eval(a => Holds(row, a), Not(e)) <==> !Eval(a => Holds(row, a), e);
  }

  lemma {:induction false} EvalIn(row: Row, key: string, members: seq<Coerced>)
    requires members != []
    ensures Eval(a => Holds(row, a), InExpr(key, members)) <==> exists m :: m in members && Includes(row, key, m)
  {
    var holds := a => Holds(row, a);
    var a, b := MemberExprs(key, members, false, ContainsExpr), MemberExprs(key, members, true, ContainsExpr);
    EvalMembers(row, key, members, false);
    EvalMembers(row, key, members, true);
    EvalBracket(holds, a);
    EvalBracket(holds, b);
    SomeKind(key, members, ContainsExpr);
    var es := Bracket(true, a) + Bracket(true, b);
    EvalSingles(holds, es);
    EvalOrsOf(holds, Singles(es));
    assert Eval(holds, InExpr(key, members)) <==> EvalOrs(holds, OrsOf(Singles(es)));
    hide Eval, Holds, Includes, MemberExprs, Singles, EvalOrs, EvalAnds, Bracket;
    assert forall e :: e in es <==> e in Bracket(true, a) || e in Bracket(true, b);
  }

  lemma {:induction false} EvalNotIn(row: Row, key: string, members: seq<Coerced>)
    requires members != []
    ensures EvalAnds(a => Holds(row, a), NotInChain(key, members))
       <==> forall m :: m in members ==> !Includes(row, key, m)
  {
    var holds := a => Holds(row, a);
    var a, b := MemberExprs(key, members, false, NotContainsExpr), MemberExprs(key, members, true, NotContainsExpr);
    EvalMembers(row, key, members, false);
    EvalMembers(row, key, members, true);
    EvalBracket(holds, a);
    EvalBracket(holds, b);
    SomeKind(key, members, NotContainsExpr);
    var es := Bracket(false, a) + Bracket(false, b);
    EvalAndsOf(holds, es);
    hide Eval, Holds, Includes, MemberExprs, EvalOrs, EvalAnds, Bracket;
    assert forall e :: e in es <==> e in Bracket(false, a) || e in Bracket(false, b);
  }

  // ----- one filter -----

  lemma {:induction false} MembersExist(x: Interpreter, v: FilterValue)
    requires Members(x, v).Ok? && WritesNumerals(x)
    ensures Members(x, v).value != [] && forall m :: m in Members(x, v).value ==> Writable(m)
  {
    CoercedWritable(x, EsFilter.CsvOrList(x.py, v).value);
  }

  lemma {:induction false} CoercedWritable(x: Interpreter, texts: seq<string>)
    requires WritesNumerals(x)
    ensures |CoerceAll(x, texts)| == |texts| && forall m :: m in CoerceAll(x, texts) ==> Writable(m)
  {
    if texts != [] {
      CoercedWritable(x, texts[1..]);
    }
  }

  /** The condition behind the string for one filter. */
  ghost function Chain(x: Interpreter, r: Request): Ands
    requires Fragment(x, r).Ok? && WritesNumerals(x)
  {
    match r.operator
    case Range(op) => LastAnd(Leaf(RangeAtom(r.key, op, CoerceRangeValue(x, r.value).value)))
    case Plain(Empty) => LastAnd(FieldExpr("JSON_EXTRACT_STRING", r.key, "=", Literal("\"\"")))
    case Plain(NotEmpty) => LastAnd(FieldExpr("JSON_EXTRACT_STRING", r.key, "!=", Literal("\"\"")))
    case Plain(Equal) => LastAnd(ContainsExpr(r.key, CoerceScalarValue(x, r.value).value))
    case Plain(NotEqual) => LastAnd(NotContainsExpr(r.key, CoerceScalarValue(x, r.value).value))
    case Plain(In) => MembersExist(x, r.value); LastAnd(InExpr(r.key, Members(x, r.value).value))
    case Plain(NotIn) => MembersExist(x, r.value); NotInChain(r.key, Members(x, r.value).value)
    case Plain(Contain) => LastAnd(ContainsExpr(r.key, Coerce(x, Shown(x.py, r.value))))
    case Plain(NotContain) => LastAnd(NotContainsExpr(r.key, Textual(r.value.text)))
    case Plain(StartWith) =>
      LastAnd(FieldExpr("JSON_EXTRACT_STRING", r.key, "LIKE", Literal(Escape(LIKE, r.value.text) + "%")))
    case Plain(EndWith) =>
      LastAnd(FieldExpr("JSON_EXTRACT_STRING", r.key, "LIKE", Literal("%" + Escape(LIKE, r.value.text))))
  }

  ghost predicate Writes(a: Ands, text: string) {
    AndsText(a) == text && ValidAnds(a)
  }

  lemma {:induction false} OneWritten(e: Expr, text: string)
    requires ExprText(e) == text && Valid(e)
    ensures Writes(LastAnd(e), text)
  {
    hide ExprText, Valid;
  }

  lemma {:induction false} RangeWritten(key: string, op: Comparison, c: Coerced)
    requires ValidKey(key) && Writable(c)
    ensures Writes(LastAnd(Leaf(RangeAtom(key, op, c))), RangeText(key, op, c))
  {
    var fn := if c.Number? then "JSON_EXTRACT_DOUBLE" else "JSON_EXTRACT_STRING";
    var right := if c.Number? then Name(c.numeral) else Literal(c.text);
    FixedNames();
    SymbolIsOp(op);
    FieldValid(fn, key, Symbol(op), right);
    FieldWritten(fn, key, Symbol(op), right);
    FieldCompared(fn, key, Symbol(op), OperandText(right));
    hide IsName, ValidKey, Valid, ExprText, Symbol, EscapeQuotes;
    if c.Textual? {
      BeforeLiteral(StringField(key) + " " + Symbol(op), EscapeQuotes(c.text));
    }
    OneWritten(Leaf(RangeAtom(key, op, c)), RangeText(key, op, c));
  }

  lemma {:induction false} BeforeLiteral(before: string, t: string)
    ensures before + " " + ("'" + t + "'") == before + " '" + t + "'"
  {
    assert " " + ("'" + t + "'") == " '" + t + "'";
  }

  lemma {:induction false} FieldCompared(fn: string, key: string, op: string, right: string)
    ensures fn + "(meta_fields, '$." + key + "')" + (" " + op + " " + right)
         == fn + "(meta_fields, '$." + key + "')" + " " + op + " " + right
    ensures "JSON_EXTRACT_STRING" + "(meta_fields, '$." + key + "')" == StringField(key)
    ensures "JSON_EXTRACT_DOUBLE" + "(meta_fields, '$." + key + "')" == DoubleField(key)
  {
    assert "JSON_EXTRACT_STRING" + "(meta_fields, '$." == "JSON_EXTRACT_STRING(meta_fields, '$.";
    assert "JSON_EXTRACT_DOUBLE" + "(meta_fields, '$." == "JSON_EXTRACT_DOUBLE(meta_fields, '$.";
  }

  /** A comparison of the string field with a literal. */
  lemma {:induction false} StringCompared(key: string, op: string, t: string)
    requires ValidKey(key) && (op == "LIKE" || (op != "" && All(op, IsOpChar)))
    ensures Writes(LastAnd(FieldExpr("JSON_EXTRACT_STRING", key, op, Literal(t))),
                   StringField(key) + (" " + op + " '" + EscapeQuotes(t) + "'"))
  {
    FixedNames();
    FieldValid("JSON_EXTRACT_STRING", key, op, Literal(t));
    FieldWritten("JSON_EXTRACT_STRING", key, op, Literal(t));
    FieldCompared("JSON_EXTRACT_STRING", key, op, OperandText(Literal(t)));
    hide IsName, ValidKey, Valid, ExprText, EscapeQuotes, FieldExpr;
    BeforeLiteral(" " + op, EscapeQuotes(t));
    OneWritten(FieldExpr("JSON_EXTRACT_STRING", key, op, Literal(t)),
        StringField(key) + (" " + op + " '" + EscapeQuotes(t) + "'"));
  }

  /** The two nested escapings: the pattern's own and that of the literal around it. */
  lemma {:induction false} PatternTexts(t: string)
    ensures " " + "LIKE" + " '" + EscapeQuotes(t + "%") + "'" == " LIKE '" + EscapeQuotes(t) + "%'"
    ensures " " + "LIKE" + " '" + EscapeQuotes("%" + t) + "'" == " LIKE '%" + EscapeQuotes(t) + "'"
  {
    EscapeAround("", t, "%");
    EscapeAround("%", t, "");
    assert "" + t + "%" == t + "%" && "%" + t + "" == "%" + t;
    hide EscapeQuotes;
    assert " LIKE '%" == " " + "LIKE" + " '" + "%" && "%'" == "%" + "'";
    assert " LIKE '" == " " + "LIKE" + " '";
  }

  lemma {:induction false} EmptyTexts()
    ensures " " + "=" + " '" + EscapeQuotes("\"\"") + "'" == " = '\"\"'"
    ensures " " + "!=" + " '" + EscapeQuotes("\"\"") + "'" == " != '\"\"'"
    ensures All("=", IsOpChar) && All("!=", IsOpChar)
  {
    NothingToEscape("\"\"");
    hide EscapeQuotes;
  }

  lemma {:induction false} ContainsChain(key: string, c: Coerced)
    requires ValidKey(key) && Writable(c)
    ensures Writes(LastAnd(ContainsExpr(key, c)), ContainsText(key, c))
    ensures Writes(LastAnd(NotContainsExpr(key, c)), NotContainsText(key, c))
  {
    ContainsWritten(key, c);
    ContainsValid(key, c);
    hide *;
    OneWritten(ContainsExpr(key, c), ContainsText(key, c));
    OneWritten(NotContainsExpr(key, c), NotContainsText(key, c));
  }

  lemma {:induction false} FieldConcat(key: string, a: string, b: string, c: string)
    ensures StringField(key) + (a + b + c) == StringField(key) + a + b + c
  {
  }

  /** The string for one filter is the text of its condition. */
  lemma {:induction false} FragmentWritten(x: Interpreter, r: Request)
    requires Fragment(x, r).Ok? && WritesNumerals(x)
    ensures Writes(Chain(x, r), Fragment(x, r).value)
  {
    hide ValidKey, StringField, EscapeQuotes, ContainsText, NotContainsText, InText, NotInText, RangeText, Escape,
         ContainsExpr, NotContainsExpr, FieldExpr, InExpr, NotInChain, RangeAtom, ExprText, Valid, IsName, Shown, Trim;
    match r.operator {
      case Range(op) =>
        RangeWritten(r.key, op, CoerceRangeValue(x, r.value).value);
      case Plain(Empty) =>
        EmptyTexts();
        StringCompared(r.key, "=", "\"\"");
      case Plain(NotEmpty) =>
        EmptyTexts();
        StringCompared(r.key, "!=", "\"\"");
      case Plain(Equal) =>
        ContainsChain(r.key, CoerceScalarValue(x, r.value).value);
      case Plain(NotEqual) =>
        ContainsChain(r.key, CoerceScalarValue(x, r.value).value);
      case Plain(In) =>
        MembersExist(x, r.value);
        hide Members;
        InWritten(r.key, Members(x, r.value).value);
        OneWritten(InExpr(r.key, Members(x, r.value).value), InText(r.key, Members(x, r.value).value));
      case Plain(NotIn) =>
        MembersExist(x, r.value);
        hide Members;
        NotInWritten(r.key, Members(x, r.value).value);
      case Plain(Contain) =>
        ContainsChain(r.key, Coerce(x, Shown(x.py, r.value)));
      case Plain(NotContain) =>
        ContainsChain(r.key, Textual(r.value.text));
      case Plain(StartWith) =>
        var t := Escape(LIKE, r.value.text);
        PatternTexts(t);
        StringCompared(r.key, "LIKE", t + "%");
        FieldConcat(r.key, " LIKE '", EscapeQuotes(t), "%'");
      case Plain(EndWith) =>
        var t := Escape(LIKE, r.value.text);
        PatternTexts(t);
        StringCompared(r.key, "LIKE", "%" + t);
        FieldConcat(r.key, " LIKE '%", EscapeQuotes(t), "'");
    }
  }

  lemma {:induction false} EvalField(row: Row, key: string, op: string, t: string)
    requires op == "=" || op == "!=" || op == "LIKE"
    ensures EvalAnds(a => Holds(row, a), LastAnd(FieldExpr("JSON_EXTRACT_STRING", key, op, Literal(t)))) <==>
              if op == "=" then Field(row, key) == t
              else if op == "!=" then Field(row, key) != t
              else Wild(LIKE, t, Field(row, key))
  {
    var e := FieldExpr("JSON_EXTRACT_STRING", key, op, Literal(t));
    assert EvalAnds(a => Holds(row, a), LastAnd(e)) <==> Eval(a => Holds(row, a), e);
    assert Eval(a => Holds(row, a), e) <==> Holds(row, e.atom);
    hide Wild;
  }

  lemma {:induction false} EvalRange(row: Row, key: string, op: Comparison, c: Coerced)
    ensures EvalAnds(a => Holds(row, a), LastAnd(Leaf(RangeAtom(key, op, c)))) <==>
              match c
              case Number(n) => IsInRange(op, row.number("$." + key) - row.numeral(n))
              case Textual(t) => IsInOrder(row, op, Field(row, key), t)
  {
    var e := Leaf(RangeAtom(key, op, c));
    hide Wild;
    assert EvalAnds(a => Holds(row, a), LastAnd(e)) <==> Eval(a => Holds(row, a), e);
    assert Eval(a => Holds(row, a), e) <==> Holds(row, e.atom);
  }

  lemma {:induction false} EvalOne(holds: Atom -> bool, e: Expr)
    ensures EvalAnds(holds, LastAnd(e)) <==> Eval(holds, e)
  {
  }

  /** The condition behind one filter says of a row what the filter asks of it. */
  lemma {:induction false} FragmentMeaning(x: Interpreter, row: Row, r: Request)
    requires Fragment(x, r).Ok? && WritesNumerals(x)
    ensures EvalAnds(a => Holds(row, a), Chain(x, r)) <==> Means(x, row, r)
  {
    hide ValidKey, StringField, EscapeQuotes, ContainsText, NotContainsText, InText, NotInText, RangeText,
         Escape, Includes, ContainsExpr, NotContainsExpr, FieldExpr, InExpr, NotInChain, RangeAtom, IsName, Shown, Trim,
         Eval, EvalAnds, Holds, Wild, Field;
    var holds := a => Holds(row, a);
    match r.operator {
      case Range(op) =>
        EvalRange(row, r.key, op, CoerceRangeValue(x, r.value).value);
      case Plain(Empty) =>
        EvalField(row, r.key, "=", "\"\"");
      case Plain(NotEmpty) =>
        EvalField(row, r.key, "!=", "\"\"");
      case Plain(Equal) =>
        var c := CoerceScalarValue(x, r.value).value;
        EvalContains(row, r.key, c);
        EvalOne(holds, ContainsExpr(r.key, c));
      case Plain(NotEqual) =>
        var c := CoerceScalarValue(x, r.value).value;
        EvalContains(row, r.key, c);
        EvalOne(holds, NotContainsExpr(r.key, c));
      case Plain(In) =>
        MembersExist(x, r.value);
        hide Members;
        EvalIn(row, r.key, Members(x, r.value).value);
        EvalOne(holds, InExpr(r.key, Members(x, r.value).value));
      case Plain(NotIn) =>
        MembersExist(x, r.value);
        hide Members;
        EvalNotIn(row, r.key, Members(x, r.value).value);
      case Plain(Contain) =>
        var c := Coerce(x, Shown(x.py, r.value));
        EvalContains(row, r.key, c);
        EvalOne(holds, ContainsExpr(r.key, c));
      case Plain(NotContain) =>
        EvalContains(row, r.key, Textual(r.value.text));
        EvalOne(holds, NotContainsExpr(r.key, Textual(r.value.text)));
      case Plain(StartWith) =>
        EvalField(row, r.key, "LIKE", Escape(LIKE, r.value.text) + "%");
        StartsPattern(LIKE, r.value.text, Field(row, r.key));
      case Plain(EndWith) =>
        EvalField(row, r.key, "LIKE", "%" + Escape(LIKE, r.value.text));
        EndsPattern(LIKE, r.value.text, Field(row, r.key));
    }
  }
}
