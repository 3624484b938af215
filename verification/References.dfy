/** How references are written: braces around them, the characters of their parts, and what they read through. */
module References {
  import opened Wrappers
  import opened Dicts
  import opened Json
  import opened Text
  import opened Variables
  import RefScan
  import RuntimeRefs
  import Templates
  import TranslationLaws

  // ----- braces -----

  ghost predicate Only(s: string, c: char) {
    forall i :: 0 <= i < |s| ==> s[i] == c
  }

  lemma {:induction false} StartsOff(a: string, t: string, c: char)
    requires Only(a, c) && (t == "" || t[0] != c)
    ensures StripStart(a + t, c) == t
  {
    if a == "" {
      assert a + t == t;
    } else {
      assert (a + t)[1..] == a[1..] + t;
      StartsOff(a[1..], t, c);
    }
  }

  lemma {:induction false} EndsOff(t: string, b: string, c: char)
    requires Only(b, c) && (t == "" || t[|t| - 1] != c)
    ensures StripEnd(t + b, c) == t
    decreases |b|
  {
    if b == "" {
      assert t + b == t;
    } else {
      var n := |b| - 1;
      assert (t + b)[..|t + b| - 1] == t + b[..n];
      EndsOff(t, b[..n], c);
    }
  }

  lemma {:induction false} StripsOff(a: string, t: string, b: string, c: char)
    requires Only(a, c) && Only(b, c) && t != "" && t[0] != c && t[|t| - 1] != c
    ensures Strip(a + t + b, c) == t
  {
    assert a + t + b == a + (t + b) && (t + b)[0] == t[0];
    StartsOff(a, t + b, c);
    EndsOff(t, b, c);
  }

  predicate IsBare(s: string) {
    s != "" && '{' !in s && '}' !in s && ' ' !in s
  }

  function Bare(exp: string): string {
    Strip(Strip(Strip(Strip(Strip(exp, '{'), '}'), ' '), '{'), '}')
  }

  lemma {:induction false} StripsNothing(s: string)
    requires IsBare(s)
    ensures Bare(s) == s
  {
    assert s[0] in s && s[|s| - 1] in s;
    assert "" + s + "" == s;
    StripsOff("", s, "", '{');
    StripsOff("", s, "", '}');
    StripsOff("", s, "", ' ');
  }

  /** Braces, and blanks within them, do not matter to a reference. */
  lemma {:induction false} BracesDoNotMatter(s: string)
    requires IsBare(s)
    ensures Parse("{" + s + "}") == Parse(s) && Parse("{{" + s + "}}") == Parse(s)
    ensures Parse("{ " + s + " }") == Parse(s) && Parse("{ {" + s + "} }") == Parse(s)
  {
    hide Strip, Bare, Parse;
    StripsNothing(s);
    Braced("{", "", "", s, "", "", "}");
    Braced("{{", "", "", s, "", "", "}}");
    Braced("{", " ", "", s, "", " ", "}");
    Braced("{", " ", "{", s, "}", " ", "}");
    Shapes(s);
    SameParse("{" + s + "}", s);
    SameParse("{{" + s + "}}", s);
    SameParse("{ " + s + " }", s);
    SameParse("{ {" + s + "} }", s);
  }

  lemma {:induction false} SameParse(exp: string, other: string)
    requires Bare(exp) == Bare(other)
    ensures Parse(exp) == Parse(other)
  {
    hide Strip, IndexOf;
  }

  lemma {:induction false} Shapes(s: string)
    ensures "{" + ("" + ("" + s + "") + "") + "}" == "{" + s + "}"
    ensures "{{" + ("" + ("" + s + "") + "") + "}}" == "{{" + s + "}}"
    ensures "{" + (" " + ("" + s + "") + " ") + "}" == "{ " + s + " }"
    ensures "{" + (" " + ("{" + s + "}") + " ") + "}" == "{ {" + s + "} }"
  {
  }

  lemma {:induction false} Braced(
      open: string, before: string, inner: string, s: string, close: string, after: string, end: string)
    requires IsBare(s) && Only(open, '{') && Only(inner, '{') && Only(close, '}') && Only(end, '}')
    requires Only(before, ' ') && Only(after, ' ')
    requires before == "" ==> inner == ""
    requires after == "" ==> close == ""
    ensures Bare(open + (before + (inner + s + close) + after) + end) == s
  {
    var t := inner + s + close;
    var u := before + t + after;
    assert s[0] in s && s[|s| - 1] in s;
    assert t[0] == if inner == "" then s[0] else inner[0];
    assert t[|t| - 1] == if close == "" then s[|s| - 1] else close[|close| - 1];
    assert inner != "" ==> inner[0] in inner;
    assert close != "" ==> close[|close| - 1] in close;
    assert before != "" ==> before[0] in before;
    assert after != "" ==> after[|after| - 1] in after;
    assert u[0] == if before == "" then t[0] else before[0];
    assert u[|u| - 1] == if after == "" then t[|t| - 1] else after[|after| - 1];
    Peel(open, u, end, '{', '}');
    StripsOff(before, t, after, ' ');
    Peel(inner, s, close, '{', '}');
    hide Strip;
  }

  /** Stripping one character at the front and another at the back. */
  lemma {:induction false} Peel(a: string, t: string, b: string, c: char, d: char)
    requires Only(a, c) && Only(b, d) && c != d && t != ""
    requires t[0] != c && t[|t| - 1] != d && t[0] != d && t[|t| - 1] != c
    ensures Strip(Strip(a + t + b, c), d) == t
  {
    var v := t + b;
    assert a + t + b == a + v + "";
    assert b != "" ==> b[|b| - 1] in b;
    assert v[0] == t[0] && v[|v| - 1] == if b == "" then t[|t| - 1] else b[|b| - 1];
    StripsOff(a, v, "", c);
    assert v == "" + t + b;
    StripsOff("", t, b, d);
  }

  // ----- reading -----

  /** Below a text one reads in the dict or list that it is the JSON of, and nothing if it is none. */
  lemma {:induction false} JsonTextsAreRead(host: Host, text: string, keys: seq<string>)
    requires keys != []
    ensures host.loads(text).None? ==> ReadAt(host, Str(text), keys) == Null
    ensures host.loads(text).Some? && (host.loads(text).value.Obj? || host.loads(text).value.Arr?) ==>
              ReadAt(host, Str(text), keys) == ReadAt(host, host.loads(text).value, keys)
  {
    ReadNull(host, keys[1..]);
  }

  /** An output that a component does not have reads as the empty text. */
  lemma {:induction false} AbsentOutputsAreEmpty(host: Host, s: Store, component: string, name: string)
    requires component in s.outputs && name != "" && Lookup(s.outputs[component], name).None?
    ensures ReadOutput(host, s.outputs[component], name, []) == Str("")
  {
  }

  /** What counts as empty: null, false, zero, and texts, lists and dicts without content. */
  lemma {:induction false} EmptyValues(v: Value)
    ensures IsFalsy(v) <==>
              match v
              case Null => true
              case Bool(truth) => !truth
              case Num(number) => number == 0.0
              case Str(text) => |text| == 0
              case Arr(items) => |items| == 0
              case Obj(entries) => |entries| == 0
  {
  }

  // ----- characters -----

  /** Letters, digits and the underscore, those of a metadata key. */
  lemma {:induction false} WordChars(c: char)
    ensures RefScan.IsWordChar(c) <==> TranslationLaws.IsLetter(c) || c in TranslationLaws.DIGITS
  {
    TranslationLaws.KeyCharIff(c);
    hide TranslationLaws.IsLetter;
  }

  /** Ids and names at migration and at run time: the dash is in the migration's ids and in all names. */
  lemma {:induction false} PartsDiffer(c: char)
    ensures RefScan.IsIdChar(c) <==> RuntimeRefs.IsRuntimeIdChar(c) || c == '-'
    ensures RefScan.IsNameChar(c) <==> RuntimeRefs.IsBuiltinChar(c) || c == '-'
    ensures c !in "@{} .-\n\t" && c != ':' ==>
              (RefScan.IsIdChar(c) <==> RefScan.IsNameChar(c))
    ensures RuntimeRefs.IsRuntimeIdChar(':') && !RuntimeRefs.IsRuntimeIdChar('-') && !RuntimeRefs.IsRuntimeIdChar('.')
    ensures RuntimeRefs.IsBuiltinChar('.') && !RuntimeRefs.IsBuiltinChar('-') && !RuntimeRefs.IsBuiltinChar(':')
    ensures RefScan.IsNameChar('.') && RefScan.IsNameChar('-') && !RefScan.IsNameChar(':')
    ensures forall d :: d in "@{} \n\t/" ==> !RefScan.IsIdChar(d) && !RefScan.IsNameChar(d)
  {
  }

  // ----- builtins -----

  /** `sys.` or `env.` in any case, and a name after it. */
  predicate IsBuiltinKey(key: string) {
    && |key| > 4 && Lower(key[..4]) in ["sys.", "env."]
    && forall i :: 4 <= i < |key| ==> RefScan.IsWordChar(key[i]) || key[i] == '.'
  }

  lemma {:induction false} BuiltinChars(key: string)
    requires IsBuiltinKey(key)
    ensures key[3] == '.' && forall i :: 0 <= i < |key| ==> RefScan.IsWordChar(key[i]) || key[i] == '.'
    ensures forall i :: 0 <= i < 3 ==> RefScan.IsWordChar(key[i])
  {
    var lower := Lower(key[..4]);
    assert lower == "sys." || lower == "env.";
    assert forall i :: 0 <= i < 4 ==> lower[i] == LowerChar(key[i]);
  }

  lemma {:induction false} BuiltinMatches(key: string)
    requires IsBuiltinKey(key)
    ensures RuntimeRefs.MatchRuntime("{" + key + "}") == Some(RuntimeRefs.CoreMatch(RuntimeRefs.Builtin(key), ""))
  {
    BuiltinChars(key);
    var s, rest := "{" + key + "}", key + "}";
    assert s == "{" + rest && rest[0] == key[0];
    TakeExact("{", rest, RefScan.IsOpen);
    TakeExact("", rest, RuntimeRefs.IsBlank);
    assert "" + rest == rest;
    BuiltinCore(key);
    TakeNothing();
    hide Take, RuntimeRefs.MatchCore, IsBuiltinKey;
  }

  lemma {:induction false} BuiltinCore(key: string)
    requires IsBuiltinKey(key)
    ensures RuntimeRefs.MatchCore("{" + (key + "}")) == Some(RuntimeRefs.CoreMatch(RuntimeRefs.Builtin(key), ""))
  {
    NoVariable(key);
    BuiltinFound(key);
    assert ("{" + (key + "}"))[1..] == key + "}";
    hide RuntimeRefs.MatchVariable, RuntimeRefs.MatchBuiltin, IsBuiltinKey;
  }

  lemma {:induction false} BuiltinFound(key: string)
    requires IsBuiltinKey(key)
    ensures RuntimeRefs.MatchBuiltin(key + "}") == Some(RuntimeRefs.CoreMatch(RuntimeRefs.Builtin(key), ""))
  {
    var rest := key + "}";
    TakeExact(key[4..], "}", RuntimeRefs.IsBuiltinChar);
    hide Take, Lower;
    assert rest[4..] == key[4..] + "}" && rest[..4] == key[..4];
    assert key[..4] + key[4..] == key;
    assert "}"[1..] == "";
  }

  lemma {:induction false} TakeNothing()
    ensures Take("", RuntimeRefs.IsBlank) == Taken("", "") && Take("", RefScan.IsClose) == Taken("", "")
  {
  }

  lemma {:induction false} NoVariable(key: string)
    requires IsBuiltinKey(key)
    ensures RuntimeRefs.MatchVariable(key + "}").None?
  {
    BuiltinChars(key);
    var tail := key[3..] + "}";
    assert key + "}" == key[..3] + tail && tail[0] == '.';
    TakeExact(key[..3], tail, RuntimeRefs.IsRuntimeIdChar);
  }

  /** A `sys.` or `env.` variable alone resolves to the global of exactly that name. */
  lemma {:induction false} BuiltinAlone(host: Host, dumps: Value -> string, store: Store, key: string)
    requires IsBuiltinKey(key)
    ensures Templates.Resolve(host, dumps, store, "{" + key + "}") ==
              if key !in store.globals then Err(NoSuchGlobal(key))
              else
                var v := store.globals[key];
                Ok(if v == Null then "" else if v.Str? then v.text else dumps(v))
  {
    BuiltinMatches(key);
    BuiltinIsGlobal(key);
    Templates.Unfold(host, dumps, store, "{" + key + "}");
    hide RuntimeRefs.MatchRuntime, RuntimeRefs.RuntimeScan, IsBuiltinKey, Parse;
    assert Templates.Resolve(host, dumps, store, "") == Ok("");
    hide Templates.Resolve;
    if key in store.globals {
      var w := Templates.Written(dumps, store.globals[key]);
      assert w + "" == w;
    }
  }

  lemma {:induction false} BuiltinIsGlobal(key: string)
    requires IsBuiltinKey(key)
    ensures Parse(key) == Global(key)
  {
    BuiltinChars(key);
    assert forall c :: c in key ==> RefScan.IsWordChar(c) || c == '.';
    Templates.GlobalParses(key);
    hide Parse;
  }
}
