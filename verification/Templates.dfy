/** Filling in the references of a text (agent/canvas.py, `get_value_with_variable`). */
module Templates {
  import opened Wrappers
  import opened Json
  import opened Text
  import opened RefScan
  import opened RuntimeRefs
  import opened Resolution
  import opened Variables

  // ----- filling in -----

  /** `key`, the group of the match. */
  function KeyOf(core: Core): string {
    match core
    case Variable(id, name) => id + "@" + name
    case Builtin(key) => key
  }

  /** The text put in for a value; `dumps` is `json.dumps`. */
  function Written(dumps: Value -> string, v: Value): string {
    match v
    case Null => ""
    case Str(text) => text
    case _ => dumps(v)
  }

  function Fill(host: Host, dumps: Value -> string, store: Store, t: Token): Result<string, Failure> {
    match t
    case Char(c) => Ok([c])
    case Hit(core) =>
      match GetVariable(host, store, KeyOf(core))
      case Ok(v) => Ok(Written(dumps, v))
      case Err(e) => Err(e)
  }

  /** The filled-in text, or the first failure. */
  function FillAll(host: Host, dumps: Value -> string, store: Store, ts: seq<Token>): Result<string, Failure> {
    if ts == [] then Ok("")
    else match Fill(host, dumps, store, ts[0])
         case Err(e) => Err(e)
         case Ok(a) => After(a, FillAll(host, dumps, store, ts[1..]))
  }

  function After(a: string, r: Result<string, Failure>): Result<string, Failure> {
    match r case Err(e) => Err(e) case Ok(b) => Ok(a + b)
  }

  function Resolve(host: Host, dumps: Value -> string, store: Store, text: string): Result<string, Failure> {
    FillAll(host, dumps, store, RuntimeScan(text))
  }

  method GetValueWithVariable(
      host: Host, dumps: Value -> string, store: Store, value: string) returns (r: Result<string, Failure>)
    ensures r == Resolve(host, dumps, store, value)
  {
    hide MatchRuntime, GetVariable;
    var out, rest := "", value;
    ghost var whole := Resolve(host, dumps, store, value);
    AfterNothing(whole);
    while rest != ""
      invariant whole == After(out, Resolve(host, dumps, store, rest))
      decreases |rest|
    {
      RuntimeShrinks(rest);
      Unfold(host, dumps, store, rest);
      var m := MatchRuntime(rest);
      if m.Some? {
        var v := GetVariable(host, store, KeyOf(m.value.core));
        if v.Err? {
          return Err(v.error);
        }
        AfterBoth(out, Written(dumps, v.value), Resolve(host, dumps, store, m.value.rest));
        out := out + Written(dumps, v.value);
        rest := m.value.rest;
      } else {
        AfterBoth(out, rest[..1], Resolve(host, dumps, store, rest[1..]));
        out := out + rest[..1];
        rest := rest[1..];
      }
    }
    assert Resolve(host, dumps, store, "") == Ok("") && out + "" == out;
    return Ok(out);
  }

  lemma {:induction false} AfterNothing(r: Result<string, Failure>)
    ensures After("", r) == r
  {
    if r.Ok? {
      assert "" + r.value == r.value;
    }
  }

  lemma {:induction false} AfterBoth(a: string, b: string, r: Result<string, Failure>)
    ensures After(a, After(b, r)) == After(a + b, r)
  {
    if r.Ok? {
      assert a + (b + r.value) == a + b + r.value;
    }
  }

  lemma {:induction false} Unfold(host: Host, dumps: Value -> string, store: Store, s: string)
    requires s != ""
    ensures Resolve(host, dumps, store, s) ==
              match MatchRuntime(s)
              case None => After(s[..1], Resolve(host, dumps, store, s[1..]))
              case Some(m) =>
                match GetVariable(host, store, KeyOf(m.core))
                case Err(e) => Err(e)
                case Ok(v) => After(Written(dumps, v), Resolve(host, dumps, store, m.rest))
  {
    hide MatchRuntime, GetVariable;
    assert s[..1] == [s[0]];
    var tail := if MatchRuntime(s).Some? then RuntimeScan(MatchRuntime(s).value.rest) else RuntimeScan(s[1..]);
    assert RuntimeScan(s)[1..] == tail;
  }

  // ----- reading a key -----

  lemma {:induction false} StripAbsent(s: string, c: char)
    requires c !in s
    ensures Strip(s, c) == s
  {
  }

  lemma {:induction false} FirstAt(a: string, b: string)
    requires '@' !in a
    ensures IndexOf(a + "@" + b, '@') == |a|
  {
    if a != [] {
      assert (a + "@" + b)[1..] == a[1..] + "@" + b;
      FirstAt(a[1..], b);
    }
  }

  lemma {:induction false} NoAt(a: string)
    requires '@' !in a
    ensures IndexOf(a, '@') == |a|
  {
    if a != [] {
      NoAt(a[1..]);
    }
  }

  predicate IsKey(id: string, name: string) {
    IsRuntimeId(id) && All(name, IsNameChar)
  }

  /** A key that names a component's variable is split into the two at its `@`. */
  lemma {:induction false} KeyParses(id: string, name: string)
    requires IsKey(id, name)
    ensures Variables.Parse(id + "@" + name).Output? && Variables.Parse(id + "@" + name).component == id
    ensures forall other :: IsKey(other, name) ==>
              Variables.Parse(other + "@" + name) == Variables.Parse(id + "@" + name).(component := other)
  {
    ParsedKey(id, name);
    forall other | IsKey(other, name)
      ensures Variables.Parse(other + "@" + name) == Variables.Parse(id + "@" + name).(component := other)
    {
      ParsedKey(other, name);
    }
  }

  lemma {:induction false} ParsedKey(id: string, name: string)
    requires IsKey(id, name)
    ensures var dot := IndexOf(name, '.');
            Variables.Parse(id + "@" + name) == Output(id, name[..dot], if dot == |name| then "" else name[dot + 1..])
  {
    var key := id + "@" + name;
    assert '{' !in key && '}' !in key && ' ' !in key && '@' !in id;
    StripAbsent(key, '{');
    StripAbsent(key, '}');
    StripAbsent(key, ' ');
    FirstAt(id, name);
    hide Strip, IndexOf, All;
    assert key[..|id|] == id && key[|id| + 1..] == name;
  }

  // ----- keys found by the scan -----

  ghost predicate ValidToken(t: Token) {
    t.Hit? ==> match t.core case Variable(id, name) => IsKey(id, name) case Builtin(key) => IsGlobalKey(key)
  }

  predicate IsGlobalKey(key: string) {
    '@' !in key && '{' !in key && '}' !in key && ' ' !in key
  }

  lemma {:induction false} GlobalParses(key: string)
    requires IsGlobalKey(key)
    ensures Variables.Parse(key) == Global(key)
  {
    StripAbsent(key, '{');
    StripAbsent(key, '}');
    StripAbsent(key, ' ');
    NoAt(key);
    hide Strip, IndexOf;
  }

  lemma {:induction false} BuiltinIsValid(s: string)
    requires MatchBuiltin(s).Some?
    ensures ValidToken(Hit(MatchBuiltin(s).value.core))
  {
    var low := Lower(s[..4]);
    var name := Take(s[4..], IsBuiltinChar).head;
    assert All(name, IsBuiltinChar);
    hide Take;
    var key := s[..4] + name;
    assert MatchBuiltin(s).value.core == Builtin(key);
    forall c | c in key ensures c != '@' && c != '{' && c != '}' && c != ' ' {
      var i :| 0 <= i < |key| && key[i] == c;
      if i < 4 {
        assert low[i] == LowerChar(c);
        assert low[i] in low;
      } else {
        assert key[i] in name;
      }
    }
  }

  lemma {:induction false} VariableIsValid(s: string)
    requires MatchVariable(s).Some?
    ensures ValidToken(Hit(MatchVariable(s).value.core))
  {
    hide Take, All;
  }

  lemma {:induction false} CoreIsValid(s: string)
    requires MatchCore(s).Some?
    ensures ValidToken(Hit(MatchCore(s).value.core))
  {
    hide MatchVariable, MatchBuiltin, ValidToken;
    if MatchVariable(s[1..]).Some? {
      VariableIsValid(s[1..]);
    } else {
      BuiltinIsValid(s[1..]);
    }
  }

  lemma {:induction false} RuntimeIsValid(s: string)
    requires MatchRuntime(s).Some?
    ensures ValidToken(Hit(MatchRuntime(s).value.core))
  {
    var open := Take(s, IsOpen);
    var blanks := Take(open.rest, IsBlank);
    hide Take, MatchCore, ValidToken;
    if blanks.head != "" {
      CoreIsValid(blanks.rest);
    } else {
      CoreIsValid("{" + open.rest);
    }
  }

  lemma {:induction false} ScanIsValid(s: string)
    ensures forall t :: t in RuntimeScan(s) ==> ValidToken(t)
    decreases |s|
  {
    if s != [] {
      if MatchRuntime(s).Some? {
        RuntimeShrinks(s);
        RuntimeIsValid(s);
        hide MatchRuntime;
        ScanIsValid(MatchRuntime(s).value.rest);
      } else {
        hide MatchRuntime;
        ScanIsValid(s[1..]);
      }
    }
  }
}
