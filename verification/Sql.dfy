/**
 The part of SQL that the Infinity filters are written in: search conditions built with NOT, AND
 and OR, which bind in this order, over calls and comparisons. A quote inside a literal is doubled,
 as in section 5.3 of ISO/IEC 9075-2:2003.
 */
module Sql {
  import opened Wrappers
  import opened Text

  // ----- conditions -----

  datatype Operand = Name(word: string) | Literal(text: string)

  datatype Tail = Bare | Compare(op: string, right: Operand) | Within(values: seq<Operand>)

  /** A call, possibly compared; without arguments it is a plain word. */
  datatype Atom = Atom(head: string, args: seq<Operand>, tail: Tail)

  datatype Expr = Leaf(atom: Atom) | Not(e: Expr) | Group(alts: Ors)
  datatype Ors = LastOr(last: Ands) | Or(first: Ands, others: Ors)
  datatype Ands = LastAnd(final: Expr) | And(head: Expr, more: Ands)

  /** What a condition says, given what its atoms say. */
  predicate Eval(holds: Atom -> bool, e: Expr) {
    match e
    case Leaf(a) => holds(a)
    case Not(n) => !Eval(holds, n)
    case Group(o) => EvalOrs(holds, o)
  }

  predicate EvalOrs(holds: Atom -> bool, o: Ors) {
    match o
    case LastOr(a) => EvalAnds(holds, a)
    case Or(a, rest) => EvalAnds(holds, a) || EvalOrs(holds, rest)
  }

  predicate EvalAnds(holds: Atom -> bool, a: Ands) {
    match a
    case LastAnd(e) => Eval(holds, e)
    case And(e, rest) => Eval(holds, e) && EvalAnds(holds, rest)
  }

  // ----- tokens -----

  datatype Token = Open | Close | Comma | Word(word: string) | Quoted(text: string) | Op(op: string) | Bad

  /** Signs and points belong to numerals. */
  predicate IsWordChar(c: char) {
    'a' <= c <= 'z' || 'A' <= c <= 'Z' || '0' <= c <= '9' || c == '_' || c == '.' || c == '+' || c == '-'
  }

  predicate IsOpChar(c: char) {
    c == '=' || c == '!' || c == '<' || c == '>'
  }

  predicate IsKeyword(w: string) {
    w == "AND" || w == "OR" || w == "NOT" || w == "LIKE" || w == "IN"
  }

  datatype Unquoted = Unquoted(text: string, rest: string)

  /** Reads a literal up to its closing quote; a doubled quote stands for one. */
  function Unquote(s: string): (r: Option<Unquoted>)
    ensures r.Some? ==> |r.value.rest| < |s|
  {
    if s == [] then None
    else if s[0] != '\'' then Prefixed(s[0], Unquote(s[1..]))
    else if |s| > 1 && s[1] == '\'' then Prefixed('\'', Unquote(s[2..]))
    else Some(Unquoted("", s[1..]))
  }

  function Prefixed(c: char, r: Option<Unquoted>): Option<Unquoted> {
    match r case None => None case Some(q) => Some(Unquoted([c] + q.text, q.rest))
  }

  function Lex(s: string): seq<Token>
    decreases |s|
  {
    if s == [] then []
    else if s[0] == ' ' then Lex(s[1..])
    else if s[0] == '(' then [Open] + Lex(s[1..])
    else if s[0] == ')' then [Close] + Lex(s[1..])
    else if s[0] == ',' then [Comma] + Lex(s[1..])
    else if s[0] == '\'' then
      (match Unquote(s[1..]) case None => [Bad] case Some(q) => [Quoted(q.text)] + Lex(q.rest))
    else if IsWordChar(s[0]) then
      var t := Take(s, IsWordChar);
      Shrinks(s, t);
      [Word(t.head)] + Lex(t.rest)
    else if IsOpChar(s[0]) then
      var t := Take(s, IsOpChar);
      Shrinks(s, t);
      [Op(t.head)] + Lex(t.rest)
    else [Bad] + Lex(s[1..])
  }

  lemma {:induction false} Shrinks(s: string, t: Taken)
    requires s != [] && t.head + t.rest == s && t.rest != s
    ensures |t.rest| < |s|
  {
    assert [] + t.rest == t.rest;
  }

  // ----- parsing -----

  datatype Parsed<T> = Parsed(value: T, rest: seq<Token>)

  function ParseOrs(ts: seq<Token>): (r: Option<Parsed<Ors>>)
    ensures r.Some? ==> |r.value.rest| < |ts|
    decreases |ts|, 3
  {
    match ParseAnds(ts)
    case None => None
    case Some(p) =>
      if p.rest != [] && p.rest[0] == Word("OR") then
        match ParseOrs(p.rest[1..])
        case None => None
        case Some(q) => Some(Parsed(Or(p.value, q.value), q.rest))
      else Some(Parsed(LastOr(p.value), p.rest))
  }

  function ParseAnds(ts: seq<Token>): (r: Option<Parsed<Ands>>)
    ensures r.Some? ==> |r.value.rest| < |ts|
    decreases |ts|, 2
  {
    match ParseNot(ts)
    case None => None
    case Some(p) =>
      if p.rest != [] && p.rest[0] == Word("AND") then
        match ParseAnds(p.rest[1..])
        case None => None
        case Some(q) => Some(Parsed(And(p.value, q.value), q.rest))
      else Some(Parsed(LastAnd(p.value), p.rest))
  }

  function ParseNot(ts: seq<Token>): (r: Option<Parsed<Expr>>)
    ensures r.Some? ==> |r.value.rest| < |ts|
    decreases |ts|, 1
  {
    if ts == [] then None
    else if ts[0] == Word("NOT") then
      match ParseNot(ts[1..])
      case None => None
      case Some(p) => Some(Parsed(Not(p.value), p.rest))
    else if ts[0] == Open then
      match ParseOrs(ts[1..])
      case None => None
      case Some(p) => if p.rest != [] && p.rest[0] == Close then Some(Parsed(Group(p.value), p.rest[1..])) else None
    else
      match ParseAtom(ts)
      case None => None
      case Some(p) => Some(Parsed(Leaf(p.value), p.rest))
  }

  function ParseAtom(ts: seq<Token>): (r: Option<Parsed<Atom>>)
    ensures r.Some? ==> |r.value.rest| < |ts|
  {
    if ts == [] || !ts[0].Word? || IsKeyword(ts[0].word) then None
    else if |ts| > 1 && ts[1] == Open then
      match ParseOperands(ts[2..])
      case None => None
      case Some(p) => ParseTail(Atom(ts[0].word, p.value, Bare), p.rest)
    else ParseTail(Atom(ts[0].word, [], Bare), ts[1..])
  }

  function ParseTail(a: Atom, ts: seq<Token>): (r: Option<Parsed<Atom>>)
    ensures r.Some? ==> |r.value.rest| <= |ts|
  {
    if ts == [] then Some(Parsed(a, ts))
    else if ts[0].Op? || ts[0] == Word("LIKE") then
      match ParseOperand(ts[1..])
      case None => None
      case Some(o) => Some(Parsed(a.(tail := Compare(if ts[0].Op? then ts[0].op else "LIKE", o)), ts[2..]))
    else if ts[0] == Word("IN") then
      if |ts| > 1 && ts[1] == Open then
        match ParseOperands(ts[2..])
        case None => None
        case Some(p) => Some(Parsed(a.(tail := Within(p.value)), p.rest))
      else None
    else Some(Parsed(a, ts))
  }

  function ParseOperand(ts: seq<Token>): (r: Option<Operand>)
    ensures r.Some? ==> ts != []
  {
    if ts == [] then None
    else if ts[0].Quoted? then Some(Literal(ts[0].text))
    else if ts[0].Word? && !IsKeyword(ts[0].word) then Some(Name(ts[0].word))
    else None
  }

  /** One or more operands and the closing parenthesis. */
  function ParseOperands(ts: seq<Token>): (r: Option<Parsed<seq<Operand>>>)
    ensures r.Some? ==> |r.value.rest| < |ts|
    decreases |ts|
  {
    match ParseOperand(ts)
    case None => None
    case Some(o) =>
      if |ts| > 1 && ts[1] == Comma then
        match ParseOperands(ts[2..])
        case None => None
        case Some(p) => Some(Parsed([o] + p.value, p.rest))
      else if |ts| > 1 && ts[1] == Close then Some(Parsed([o], ts[2..]))
      else None
  }

  /** The condition a text stands for, if it is one. */
  function Parse(s: string): Option<Ors> {
    match ParseOrs(Lex(s))
    case None => None
    case Some(p) => if p.rest == [] then Some(p.value) else None
  }

  // ----- writing conditions -----

  /** `_escape_sql_string` */
  function EscapeQuotes(s: string): string {
    ReplaceChar(s, '\'', "''")
  }

  function OperandText(o: Operand): string {
    match o
    case Name(w) => w
    case Literal(t) => "'" + EscapeQuotes(t) + "'"
  }

  function OperandsText(os: seq<Operand>): string {
    if os == [] then ""
    else if |os| == 1 then OperandText(os[0])
    else OperandText(os[0]) + ", " + OperandsText(os[1..])
  }

  function TailText(tail: Tail, space: string): string {
    match tail
    case Bare => ""
    case Compare(op, right) => space + op + space + OperandText(right)
    case Within(values) => " IN (" + OperandsText(values) + ")"
  }

  /** A comparison of plain words is written without blanks. */
  function AtomText(a: Atom): string {
    if a.args == [] then a.head + TailText(a.tail, "")
    else a.head + "(" + OperandsText(a.args) + ")" + TailText(a.tail, " ")
  }

  function ExprText(e: Expr): string {
    match e
    case Leaf(a) => AtomText(a)
    case Not(n) => "NOT " + ExprText(n)
    case Group(o) => "(" + OrsText(o) + ")"
  }

  function OrsText(o: Ors): string {
    match o
    case LastOr(a) => AndsText(a)
    case Or(a, rest) => AndsText(a) + " OR " + OrsText(rest)
  }

  function AndsText(a: Ands): string {
    match a
    case LastAnd(e) => ExprText(e)
    case And(e, rest) => ExprText(e) + " AND " + AndsText(rest)
  }

  predicate IsName(w: string) {
    w != "" && All(w, IsWordChar) && !IsKeyword(w)
  }

  predicate ValidOperand(o: Operand) {
    o.Name? ==> IsName(o.word)
  }

  predicate ValidTail(tail: Tail, args: seq<Operand>) {
    match tail
    case Bare => true
    case Compare(op, right) => ValidOperand(right) && ((op == "LIKE" && args != []) || (op != "" && All(op, IsOpChar)))
    case Within(values) => values != [] && forall v :: v in values ==> ValidOperand(v)
  }

  predicate ValidAtom(a: Atom) {
    IsName(a.head) && (forall o :: o in a.args ==> ValidOperand(o)) && ValidTail(a.tail, a.args)
  }

  predicate Valid(e: Expr) {
    match e
    case Leaf(a) => ValidAtom(a)
    case Not(n) => Valid(n)
    case Group(o) => ValidOrs(o)
  }

  predicate ValidOrs(o: Ors) {
    match o
    case LastOr(a) => ValidAnds(a)
    case Or(a, rest) => ValidAnds(a) && ValidOrs(rest)
  }

  predicate ValidAnds(a: Ands) {
    match a
    case LastAnd(e) => Valid(e)
    case And(e, rest) => Valid(e) && ValidAnds(rest)
  }

  // ----- the tokens of a condition, in front of others -----

  function OperandToken(o: Operand): Token {
    match o
    case Name(w) => Word(w)
    case Literal(t) => Quoted(t)
  }

  function OperandTokens(os: seq<Operand>, ts: seq<Token>): seq<Token> {
    if os == [] then ts
    else if |os| == 1 then [OperandToken(os[0]), Close] + ts
    else [OperandToken(os[0]), Comma] + OperandTokens(os[1..], ts)
  }

  function TailTokens(tail: Tail, ts: seq<Token>): seq<Token> {
    match tail
    case Bare => ts
    case Compare(op, right) => [if op == "LIKE" then Word(op) else Op(op), OperandToken(right)] + ts
    case Within(values) => [Word("IN"), Open] + OperandTokens(values, ts)
  }

  function AtomTokens(a: Atom, ts: seq<Token>): seq<Token> {
    if a.args == [] then [Word(a.head)] + TailTokens(a.tail, ts)
    else [Word(a.head), Open] + OperandTokens(a.args, TailTokens(a.tail, ts))
  }

  function ExprTokens(e: Expr, ts: seq<Token>): seq<Token> {
    match e
    case Leaf(a) => AtomTokens(a, ts)
    case Not(n) => [Word("NOT")] + ExprTokens(n, ts)
    case Group(o) => [Open] + OrsTokens(o, [Close] + ts)
  }

  function OrsTokens(o: Ors, ts: seq<Token>): seq<Token> {
    match o
    case LastOr(a) => AndsTokens(a, ts)
    case Or(a, rest) => AndsTokens(a, [Word("OR")] + OrsTokens(rest, ts))
  }

  function AndsTokens(a: Ands, ts: seq<Token>): seq<Token> {
    match a
    case LastAnd(e) => ExprTokens(e, ts)
    case And(e, rest) => ExprTokens(e, [Word("AND")] + AndsTokens(rest, ts))
  }

  // ----- lexing what was written -----

  /** A text that ends whatever token stands before it. */
  predicate Ends(s: string) {
    s == [] || s[0] == ' ' || s[0] == '(' || s[0] == ')' || s[0] == ','
  }

  lemma {:induction false} UnquoteEscaped(t: string, rest: string)
    requires rest == [] || rest[0] != '\''
    ensures Unquote(EscapeQuotes(t) + ("'" + rest)) == Some(Unquoted(t, rest))
  {
    var s := EscapeQuotes(t) + ("'" + rest);
    if t == [] {
      assert s == "'" + rest;
      assert s[1..] == rest;
    } else {
      UnquoteEscaped(t[1..], rest);
      var tail := EscapeQuotes(t[1..]) + ("'" + rest);
      assert t == [t[0]] + t[1..];
      if t[0] == '\'' {
        assert s == "''" + tail;
        assert s[2..] == tail;
      } else {
        assert s == [t[0]] + tail;
        assert s[1..] == tail;
      }
    }
  }

  lemma {:induction false} LexWord(w: string, rest: string)
    requires w != "" && All(w, IsWordChar) && (rest == [] || !IsWordChar(rest[0]))
    ensures Lex(w + rest) == [Word(w)] + Lex(rest)
  {
    TakeExact(w, rest, IsWordChar);
    assert w[0] in w && (w + rest)[0] == w[0];
    hide Take, All;
  }

  lemma {:induction false} LexOp(w: string, rest: string)
    requires w != "" && All(w, IsOpChar) && (rest == [] || !IsOpChar(rest[0]))
    ensures Lex(w + rest) == [Op(w)] + Lex(rest)
  {
    TakeExact(w, rest, IsOpChar);
    assert w[0] in w && (w + rest)[0] == w[0];
    hide Take, All;
  }

  lemma {:induction false} LexLiteral(t: string, rest: string)
    requires rest == [] || rest[0] != '\''
    ensures Lex("'" + EscapeQuotes(t) + "'" + rest) == [Quoted(t)] + Lex(rest)
  {
    UnquoteEscaped(t, rest);
    var s := "'" + EscapeQuotes(t) + "'" + rest;
    assert s[1..] == EscapeQuotes(t) + ("'" + rest);
    assert s[0] == '\'';
    hide Unquote, EscapeQuotes, Take;
  }

  lemma {:induction false} LexOperand(o: Operand, rest: string)
    requires ValidOperand(o) && Ends(rest)
    ensures Lex(OperandText(o) + rest) == [OperandToken(o)] + Lex(rest)
  {
    if o.Name? {
      LexWord(o.word, rest);
    } else {
      LexLiteral(o.text, rest);
    }
  }

  /** A single character that is a token of its own, or a blank. */
  function Mark(c: char, ts: seq<Token>): seq<Token> {
    if c == '(' then [Open] + ts else if c == ')' then [Close] + ts else if c == ',' then [Comma] + ts else ts
  }

  lemma {:induction false} LexMark(c: char, rest: string)
    requires c == '(' || c == ')' || c == ',' || c == ' '
    ensures Lex([c] + rest) == Mark(c, Lex(rest))
  {
    assert ([c] + rest)[1..] == rest;
  }

  lemma {:induction false} LexOperands(os: seq<Operand>, rest: string)
    requires os != [] && forall o :: o in os ==> ValidOperand(o)
    ensures Lex(OperandsText(os) + (")" + rest)) == OperandTokens(os, Lex(rest))
  {
    hide Lex, OperandText, OperandToken, ValidOperand;
    if |os| == 1 {
      LexMark(')', rest);
      LexOperand(os[0], ")" + rest);
    } else {
      LexOperands(os[1..], rest);
      LexSeparated(os[0], OperandsText(os[1..]) + (")" + rest));
      CommaText(OperandText(os[0]), OperandsText(os[1..]), ")" + rest);
    }
  }

  lemma {:induction false} CommaText(a: string, b: string, c: string)
    ensures a + ", " + b + c == a + ("," + (" " + (b + c)))
  {
  }

  lemma {:induction false} LexSeparated(o: Operand, rest: string)
    requires ValidOperand(o)
    ensures Lex(OperandText(o) + ("," + (" " + rest))) == [OperandToken(o), Comma] + Lex(rest)
  {
    hide Lex, OperandText, OperandToken;
    LexMark(' ', rest);
    LexMark(',', " " + rest);
    LexOperand(o, "," + (" " + rest));
  }

  /** A keyword between blanks. */
  lemma {:induction false} LexKeyword(w: string, rest: string)
    requires w != "" && All(w, IsWordChar)
    ensures Lex(" " + w + " " + rest) == [Word(w)] + Lex(rest)
  {
    LexMark(' ', rest);
    LexWord(w, " " + rest);
    LexMark(' ', w + (" " + rest));
    assert " " + w + " " + rest == " " + (w + (" " + rest));
  }

  lemma {:induction false} LexIn(values: seq<Operand>, rest: string)
    requires values != [] && forall v :: v in values ==> ValidOperand(v)
    ensures Lex(" IN (" + OperandsText(values) + ")" + rest) == [Word("IN"), Open] + OperandTokens(values, Lex(rest))
  {
    hide Lex, OperandsText, OperandTokens, ValidOperand;
    LexOperands(values, rest);
    var inner := OperandsText(values) + (")" + rest);
    LexMark('(', inner);
    LexKeyword("IN", "(" + inner);
    WithinText(OperandsText(values), rest);
  }

  lemma {:induction false} WithinText(values: string, rest: string)
    ensures " IN (" + values + ")" + rest == " " + "IN" + " " + ("(" + (values + (")" + rest)))
  {
  }

  lemma {:induction false} LexLike(right: Operand, rest: string)
    requires ValidOperand(right) && Ends(rest)
    ensures Lex(" LIKE " + OperandText(right) + rest) == [Word("LIKE"), OperandToken(right)] + Lex(rest)
  {
    hide Lex, OperandText, OperandToken;
    LexOperand(right, rest);
    LexKeyword("LIKE", OperandText(right) + rest);
    assert " LIKE " + OperandText(right) + rest == " " + "LIKE" + " " + (OperandText(right) + rest);
  }

  lemma {:induction false} OperandStarts(o: Operand, rest: string)
    requires ValidOperand(o)
    ensures OperandText(o) + rest != "" && !IsOpChar((OperandText(o) + rest)[0])
  {
    if o.Name? {
      assert o.word[0] in o.word;
    }
  }

  lemma {:induction false} LexCompare(op: string, right: Operand, space: string, rest: string)
    requires ValidOperand(right) && Ends(rest) && op != "" && All(op, IsOpChar) && (space == "" || space == " ")
    ensures Lex(space + op + space + OperandText(right) + rest) == [Op(op), OperandToken(right)] + Lex(rest)
  {
    hide Lex, OperandText, OperandToken;
    LexOperand(right, rest);
    var s := OperandText(right) + rest;
    OperandStarts(right, rest);
    if space == "" {
      LexOp(op, s);
    } else {
      LexMark(' ', s);
      LexOp(op, " " + s);
      LexMark(' ', op + (" " + s));
    }
    CompareText(op, OperandText(right), rest);
  }

  lemma {:induction false} CompareText(op: string, right: string, rest: string)
    ensures "" + op + "" + right + rest == op + (right + rest)
    ensures " " + op + " " + right + rest == " " + (op + (" " + (right + rest)))
  {
  }

  lemma {:induction false} LexTail(tail: Tail, args: seq<Operand>, rest: string)
    requires ValidTail(tail, args) && Ends(rest)
    ensures Lex(TailText(tail, if args == [] then "" else " ") + rest) == TailTokens(tail, Lex(rest))
  {
    hide Lex, OperandText, OperandsText, OperandTokens, OperandToken;
    match tail {
      case Bare =>
        assert "" + rest == rest;
      case Compare(op, right) =>
        if op == "LIKE" && args != [] {
          LexLike(right, rest);
          assert " " + op + " " == " LIKE ";
        } else {
          LexCompare(op, right, if args == [] then "" else " ", rest);
          assert op[0] in op;
        }
      case Within(values) =>
        LexIn(values, rest);
    }
  }

  /** What follows the head of an atom is not part of the word. */
  lemma {:induction false} TailStarts(tail: Tail, args: seq<Operand>, rest: string)
    requires ValidTail(tail, args) && Ends(rest)
    ensures var s := TailText(tail, if args == [] then "" else " ") + rest; s == "" || !IsWordChar(s[0])
  {
    hide OperandText, OperandsText;
    if tail.Compare? && args == [] {
      assert tail.op[0] in tail.op;
      assert (TailText(tail, "") + rest)[0] == tail.op[0];
    }
  }

  lemma {:induction false} LexAtom(a: Atom, rest: string)
    requires ValidAtom(a) && Ends(rest)
    ensures Lex(AtomText(a) + rest) == AtomTokens(a, Lex(rest))
  {
    hide Lex, TailText, TailTokens, OperandTokens, OperandsText, ValidOperand, ValidTail;
    var space := if a.args == [] then "" else " ";
    var tail := TailText(a.tail, space) + rest;
    LexTail(a.tail, a.args, rest);
    if a.args == [] {
      TailStarts(a.tail, a.args, rest);
      LexWord(a.head, tail);
      assert AtomText(a) + rest == a.head + tail;
    } else {
      LexOperands(a.args, tail);
      var inner := OperandsText(a.args) + (")" + tail);
      LexMark('(', inner);
      LexWord(a.head, "(" + inner);
      CallText(a.head, OperandsText(a.args), TailText(a.tail, space), rest);
    }
  }

  lemma {:induction false} CallText(head: string, args: string, tail: string, rest: string)
    ensures head + "(" + args + ")" + tail + rest == head + ("(" + (args + (")" + (tail + rest))))
  {
  }

  lemma {:induction false} LexExpr(e: Expr, rest: string)
    requires Valid(e) && Ends(rest)
    ensures Lex(ExprText(e) + rest) == ExprTokens(e, Lex(rest))
  {
    hide Lex, AtomText, AtomTokens, ValidAtom;
    match e {
      case Leaf(a) =>
        LexAtom(a, rest);
      case Not(n) =>
        LexExpr(n, rest);
        var s := ExprText(n) + rest;
        LexMark(' ', s);
        LexWord("NOT", " " + s);
        assert ExprText(e) + rest == "NOT" + (" " + s);
      case Group(o) =>
        LexMark(')', rest);
        LexOrs(o, ")" + rest);
        var s := OrsText(o) + (")" + rest);
        LexMark('(', s);
        assert ExprText(e) + rest == "(" + s;
    }
  }

  lemma {:induction false} LexOrs(o: Ors, rest: string)
    requires ValidOrs(o) && Ends(rest)
    ensures Lex(OrsText(o) + rest) == OrsTokens(o, Lex(rest))
  {
    hide Lex;
    match o {
      case LastOr(a) =>
        LexAnds(a, rest);
      case Or(a, others) =>
        LexOrs(others, rest);
        var s := OrsText(others) + rest;
        LexKeyword("OR", s);
        LexAnds(a, " " + "OR" + " " + s);
        assert OrsText(o) + rest == AndsText(a) + (" " + "OR" + " " + s);
    }
  }

  lemma {:induction false} LexAnds(a: Ands, rest: string)
    requires ValidAnds(a) && Ends(rest)
    ensures Lex(AndsText(a) + rest) == AndsTokens(a, Lex(rest))
  {
    hide Lex;
    match a {
      case LastAnd(e) =>
        LexExpr(e, rest);
      case And(e, more) =>
        LexAnds(more, rest);
        var s := AndsText(more) + rest;
        LexKeyword("AND", s);
        LexExpr(e, " " + "AND" + " " + s);
        assert AndsText(a) + rest == ExprText(e) + (" " + "AND" + " " + s);
    }
  }

  // ----- parsing what was lexed -----

  predicate Follows(ts: seq<Token>, words: set<string>) {
    ts == [] || ts[0] == Close || (ts[0].Word? && ts[0].word in words)
  }

  lemma {:induction false} ParsesOperands(os: seq<Operand>, ts: seq<Token>)
    requires os != [] && forall o :: o in os ==> ValidOperand(o)
    ensures ParseOperands(OperandTokens(os, ts)) == Some(Parsed(os, ts))
  {
    var tokens := OperandTokens(os, ts);
    assert tokens[0] == OperandToken(os[0]) && ValidOperand(os[0]);
    if |os| == 1 {
      assert tokens[2..] == ts;
      assert os == [os[0]];
    } else {
      ParsesOperands(os[1..], ts);
      assert tokens[2..] == OperandTokens(os[1..], ts);
      assert os == [os[0]] + os[1..];
    }
  }

  lemma {:induction false} ParsesTail(a: Atom, tail: Tail, args: seq<Operand>, ts: seq<Token>)
    requires ValidTail(tail, args) && a.tail == Bare && Follows(ts, {"AND", "OR"})
    ensures ParseTail(a, TailTokens(tail, ts)) == Some(Parsed(a.(tail := tail), ts))
  {
    var tokens := TailTokens(tail, ts);
    match tail {
      case Bare =>
      case Compare(op, right) =>
        assert tokens[2..] == ts;
        assert ParseOperand(tokens[1..]) == Some(right);
      case Within(values) =>
        ParsesOperands(values, ts);
        assert tokens[2..] == OperandTokens(values, ts);
    }
  }

  lemma {:induction false} ParsesAtom(a: Atom, ts: seq<Token>)
    requires ValidAtom(a) && Follows(ts, {"AND", "OR"})
    ensures ParseAtom(AtomTokens(a, ts)) == Some(Parsed(a, ts))
  {
    var bare := Atom(a.head, a.args, Bare);
    ParsesTail(bare, a.tail, a.args, ts);
    assert bare.(tail := a.tail) == a;
    var tail := TailTokens(a.tail, ts);
    if a.args == [] {
      assert AtomTokens(a, ts)[1..] == tail;
      assert tail == [] || tail[0] != Open;
      hide ParseTail, TailTokens;
    } else {
      ParsesOperands(a.args, tail);
      hide ParseTail, TailTokens, ParseOperands, OperandTokens;
      assert AtomTokens(a, ts)[2..] == OperandTokens(a.args, tail);
    }
  }

  lemma {:induction false} ParsesExpr(e: Expr, ts: seq<Token>)
    requires Valid(e) && Follows(ts, {"AND", "OR"})
    ensures ParseNot(ExprTokens(e, ts)) == Some(Parsed(e, ts))
  {
    var tokens := ExprTokens(e, ts);
    match e {
      case Leaf(a) =>
        ParsesAtom(a, ts);
        assert tokens[0] == Word(a.head);
        hide ParseAtom, AtomTokens;
      case Not(n) =>
        ParsesExpr(n, ts);
        assert tokens[1..] == ExprTokens(n, ts);
      case Group(o) =>
        ParsesOrs(o, [Close] + ts);
        assert tokens[1..] == OrsTokens(o, [Close] + ts);
        assert ([Close] + ts)[1..] == ts;
    }
  }

  lemma {:induction false} ParsesOrs(o: Ors, ts: seq<Token>)
    requires ValidOrs(o) && Follows(ts, {})
    ensures ParseOrs(OrsTokens(o, ts)) == Some(Parsed(o, ts))
  {
    match o {
      case LastOr(a) =>
        ParsesAnds(a, ts);
      case Or(a, others) =>
        ParsesOrs(others, ts);
        var more := [Word("OR")] + OrsTokens(others, ts);
        ParsesAnds(a, more);
        assert more[1..] == OrsTokens(others, ts);
    }
  }

  lemma {:induction false} ParsesAnds(a: Ands, ts: seq<Token>)
    requires ValidAnds(a) && Follows(ts, {"OR"})
    ensures ParseAnds(AndsTokens(a, ts)) == Some(Parsed(a, ts))
  {
    match a {
      case LastAnd(e) =>
        ParsesExpr(e, ts);
      case And(e, more) =>
        ParsesAnds(more, ts);
        var next := [Word("AND")] + AndsTokens(more, ts);
        ParsesExpr(e, next);
        assert next[1..] == AndsTokens(more, ts);
    }
  }

  // ----- main result -----

  /** Every condition is read back from its text. */
  lemma {:induction false} ParseWritten(o: Ors)
    requires ValidOrs(o)
    ensures Parse(OrsText(o)) == Some(o)
  {
    LexOrs(o, "");
    ParsesOrs(o, []);
    assert OrsText(o) + "" == OrsText(o);
  }
}
