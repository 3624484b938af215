/**
 The translation of metadata filters into Infinity search conditions
 (common/metadata_infinity_filter.py), written as the strings the program builds.
 */
module InfinityFilter {
  import opened Wrappers
  import opened Text
  import opened Wildcard
  import opened MetaFilter
  import EsFilter
  import opened Sql

  // ----- filters -----

  datatype Comparison = Greater | Less | GreaterEqual | LessEqual

  datatype Operator = Plain(op: MetaFilter.Op) | Range(comparison: Comparison)

  datatype Request = Request(key: string, operator: Operator, value: FilterValue)

  datatype ValueError = BadKey | BadValue | BadLogic

  /** `numeral` gives the text of the number that `ast.literal_eval` reads, if it reads one. */
  datatype Interpreter = Interpreter(py: Python, numeral: string -> Option<string>)

  ghost predicate WritesNumerals(x: Interpreter) {
    forall s :: x.numeral(s).Some? ==> IsName(x.numeral(s).value)
  }

  // ----- keys and values -----

  predicate IsKeyStart(c: char) {
    'a' <= c <= 'z' || 'A' <= c <= 'Z' || c == '_'
  }

  predicate IsKeyChar(c: char) {
    IsKeyStart(c) || '0' <= c <= '9'
  }

  /** `$` in the key pattern also stands before a final newline. */
  function WithoutFinalNewline(key: string): string {
    if key != "" && key[|key| - 1] == '\n' then key[..|key| - 1] else key
  }

  predicate ValidKey(key: string) {
    var k := WithoutFinalNewline(key);
    k != "" && IsKeyStart(k[0]) && forall i :: 0 <= i < |k| ==> IsKeyChar(k[i])
  }

  datatype Coerced = Number(numeral: string) | Textual(text: string)

  function Coerce(x: Interpreter, s: string): Coerced {
    match x.numeral(Trim(s)) case Some(n) => Number(n) case None => Textual(s)
  }

  function CoerceScalarValue(x: Interpreter, v: FilterValue): Result<Coerced, ValueError> {
    if v.One? then Ok(Coerce(x, v.text)) else Err(BadValue)
  }

  function CoerceRangeValue(x: Interpreter, v: FilterValue): Result<Coerced, ValueError> {
    if v.NoValue? then Err(BadValue) else Ok(Coerce(x, Shown(x.py, v)))
  }

  function CoerceText(v: FilterValue): Result<string, ValueError> {
    match EsFilter.CoerceString(v) case Ok(t) => Ok(t) case Err(_) => Err(BadValue)
  }

  function CoerceAll(x: Interpreter, texts: seq<string>): seq<Coerced> {
    if texts == [] then [] else [Coerce(x, texts[0])] + CoerceAll(x, texts[1..])
  }

  function Members(x: Interpreter, v: FilterValue): Result<seq<Coerced>, ValueError> {
    match EsFilter.CsvOrList(x.py, v) case Ok(ms) => Ok(CoerceAll(x, ms)) case Err(_) => Err(BadValue)
  }

  // ----- the strings -----

  function ContainsText(key: string, c: Coerced): string {
    match c
    case Number(n) => "JSON_CONTAINS(meta_fields, '$." + key + "', " + n + ")"
    case Textual(t) => "JSON_CONTAINS(meta_fields, '$." + key + "', '\"" + EscapeQuotes(t) + "\"')"
  }

  function NotContainsText(key: string, c: Coerced): string {
    "NOT " + ContainsText(key, c)
  }

  function StringField(key: string): string {
    "JSON_EXTRACT_STRING(meta_fields, '$." + key + "')"
  }

  function DoubleField(key: string): string {
    "JSON_EXTRACT_DOUBLE(meta_fields, '$." + key + "')"
  }

  function Symbol(c: Comparison): string {
    match c case Greater => ">" case Less => "<" case GreaterEqual => ">=" case LessEqual => "<="
  }

  function RangeText(key: string, op: Comparison, c: Coerced): string {
    match c
    case Number(n) => DoubleField(key) + " " + Symbol(op) + " " + n
    case Textual(t) => StringField(key) + " " + Symbol(op) + " '" + EscapeQuotes(t) + "'"
  }

  /** `sep.join(parts)` */
  function Join(sep: string, parts: seq<string>): string {
    if parts == [] then "" else if |parts| == 1 then parts[0] else parts[0] + sep + Join(sep, parts[1..])
  }

  /** The parts for the members that are numbers, or for the others. */
  function PartsOf(key: string, members: seq<Coerced>, numbers: bool, write: (string, Coerced) -> string): seq<string> {
    if members == [] then []
    else
      var n := |members| - 1;
      PartsOf(key, members[..n], numbers, write)
      + if members[n].Number? == numbers then [write(key, members[n])] else []
  }

  function Bracketed(sep: string, parts: seq<string>): seq<string> {
    if parts == [] then [] else ["(" + Join(sep, parts) + ")"]
  }

  function InText(key: string, members: seq<Coerced>): string {
    "(" + Join(" OR ", Bracketed(" OR ", PartsOf(key, members, false, ContainsText))
                       + Bracketed(" OR ", PartsOf(key, members, true, ContainsText))) + ")"
  }

  function NotInText(key: string, members: seq<Coerced>): string {
    Join(" AND ", Bracketed(" AND ", PartsOf(key, members, false, NotContainsText))
                  + Bracketed(" AND ", PartsOf(key, members, true, NotContainsText)))
  }

  /** `translate` */
  function Fragment(x: Interpreter, r: Request): Result<string, ValueError> {
    if !ValidKey(r.key) then Err(BadKey)
    else match r.operator
      case Range(op) => (match CoerceRangeValue(x, r.value)
        case Ok(c) => Ok(RangeText(r.key, op, c)) case Err(e) => Err(e))
      case Plain(Empty) => Ok(StringField(r.key) + " = '\"\"'")
      case Plain(NotEmpty) => Ok(StringField(r.key) + " != '\"\"'")
      case Plain(Equal) => (match CoerceScalarValue(x, r.value)
        case Ok(c) => Ok(ContainsText(r.key, c)) case Err(e) => Err(e))
      case Plain(NotEqual) => (match CoerceScalarValue(x, r.value)
        case Ok(c) => Ok(NotContainsText(r.key, c)) case Err(e) => Err(e))
      case Plain(In) => (match Members(x, r.value)
        case Ok(ms) => Ok(InText(r.key, ms)) case Err(e) => Err(e))
      case Plain(NotIn) => (match Members(x, r.value)
        case Ok(ms) => Ok(NotInText(r.key, ms)) case Err(e) => Err(e))
      case Plain(Contain) =>
        if r.value == NoValue || r.value == One("") || r.value == Many([]) then Err(BadValue)
        else Ok(ContainsText(r.key, Coerce(x, Shown(x.py, r.value))))
      case Plain(NotContain) => (match CoerceText(r.value)
        case Ok(t) => Ok(NotContainsText(r.key, Textual(t))) case Err(e) => Err(e))
      case Plain(StartWith) => (match CoerceText(r.value)
        case Ok(t) => Ok(StringField(r.key) + " LIKE '" + EscapeQuotes(Escape(LIKE, t)) + "%'") case Err(e) => Err(e))
      case Plain(EndWith) => (match CoerceText(r.value)
        case Ok(t) => Ok(StringField(r.key) + " LIKE '%" + EscapeQuotes(Escape(LIKE, t)) + "'") case Err(e) => Err(e))
  }

  /** `plan_pushdown` */
  function Fragments(x: Interpreter, rs: seq<Request>): Result<seq<string>, ValueError> {
    if rs == [] then Ok([])
    else match Fragment(x, rs[0])
         case Err(e) => Err(e)
         case Ok(t) => match Fragments(x, rs[1..]) case Err(e) => Err(e) case Ok(ts) => Ok([t] + ts)
  }

  /** `build_infinity_filter` */
  function Build(x: Interpreter, rs: seq<Request>, logic: string): Result<string, ValueError> {
    if rs == [] then Ok("1=1")
    else if logic != "and" && logic != "or" then Err(BadLogic)
    else match Fragments(x, rs)
         case Err(e) => Err(e)
         case Ok(ts) => Ok("(" + Join(if logic == "and" then " AND " else " OR ", ts) + ")")
  }

  /** The condition sent to the engine. */
  function Where(kbIds: seq<string>, filter: string): string {
    "kb_id IN (" + Join(", ", QuotedIds(kbIds)) + ") AND " + filter
  }

  function QuotedIds(kbIds: seq<string>): seq<string> {
    seq(|kbIds|, i requires 0 <= i < |kbIds| => "'" + EscapeQuotes(kbIds[i]) + "'")
  }

  // ----- the loops -----

  method TranslateIn(x: Interpreter, key: string, value: FilterValue) returns (r: Result<string, ValueError>)
    ensures r == match Members(x, value) case Ok(ms) => Ok(InText(key, ms)) case Err(e) => Err(e)
  {
    var members := Members(x, value);
    if members.Err? {
      return Err(members.error);
    }
    var strings, numbers := SplitMembers(key, members.value, ContainsText);
    var conditions := [];
    if strings != [] {
      conditions := conditions + ["(" + Join(" OR ", strings) + ")"];
    }
    if numbers != [] {
      conditions := conditions + ["(" + Join(" OR ", numbers) + ")"];
    }
    assert conditions == Bracketed(" OR ", strings) + Bracketed(" OR ", numbers);
    return Ok("(" + Join(" OR ", conditions) + ")");
  }

  method TranslateNotIn(x: Interpreter, key: string, value: FilterValue) returns (r: Result<string, ValueError>)
    ensures r == match Members(x, value) case Ok(ms) => Ok(NotInText(key, ms)) case Err(e) => Err(e)
  {
    var members := Members(x, value);
    if members.Err? {
      return Err(members.error);
    }
    var strings, numbers := SplitMembers(key, members.value, NotContainsText);
    var conditions := [];
    if strings != [] {
      conditions := conditions + ["(" + Join(" AND ", strings) + ")"];
    }
    if numbers != [] {
      conditions := conditions + ["(" + Join(" AND ", numbers) + ")"];
    }
    assert conditions == Bracketed(" AND ", strings) + Bracketed(" AND ", numbers);
    return Ok(Join(" AND ", conditions));
  }

  method SplitMembers(key: string, members: seq<Coerced>, write: (string, Coerced) -> string)
    returns (strings: seq<string>, numbers: seq<string>)
    ensures strings == PartsOf(key, members, false, write) && numbers == PartsOf(key, members, true, write)
  {
    strings, numbers := [], [];
    for i := 0 to |members|
      invariant strings == PartsOf(key, members[..i], false, write)
      invariant numbers == PartsOf(key, members[..i], true, write)
    {
      assert members[..i + 1][..i] == members[..i];
      if members[i].Number? {
        numbers := numbers + [write(key, members[i])];
      } else {
        strings := strings + [write(key, members[i])];
      }
    }
    assert members[..|members|] == members;
  }
}
