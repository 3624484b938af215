/**
 The references the canvas resolves at run time (agent/component/base.py, `variable_ref_patt`;
 agent/canvas.py, `get_value_with_variable`). The runtime pattern is stricter than the migration's:
 no blank next to the id or the name, and no `-` in the id. It also takes the blanks and braces
 around a reference.
 */
module RuntimeRefs {
  import opened Wrappers
  import opened Text
  import opened RefScan

  // ----- the pattern -----

  predicate IsRuntimeIdChar(c: char) {
    RefScan.IsWordChar(c) || c == ':'
  }

  predicate IsBuiltinChar(c: char) {
    RefScan.IsWordChar(c) || c == '.'
  }

  predicate IsBlank(c: char) { c == ' ' }

  /** The group inside the braces: a component's variable, or a `sys.` or `env.` variable. */
  datatype Core = Variable(id: string, name: string) | Builtin(key: string)

  datatype CoreMatch = CoreMatch(core: Core, rest: string)

  /** `{` group `}` at the start of `s`. */
  function MatchCore(s: string): Option<CoreMatch> {
    if s == [] || s[0] != '{' then None
    else match MatchVariable(s[1..])
         case Some(m) => Some(m)
         case None => MatchBuiltin(s[1..])
  }

  /** One or more characters of a class and the closing brace. */
  function MatchEnd(s: string, kind: char -> bool): Option<Taken> {
    var name := Take(s, kind);
    if name.head == "" || name.rest == "" || name.rest[0] != '}' then None else Some(Taken(name.head, name.rest[1..]))
  }

  function MatchVariable(s: string): Option<CoreMatch> {
    var id := Take(s, IsRuntimeIdChar);
    if id.head == "" || id.rest == "" || id.rest[0] != '@' then None
    else match MatchEnd(id.rest[1..], IsNameChar)
         case None => None
         case Some(name) => Some(CoreMatch(Variable(id.head, name.head), name.rest))
  }

  function MatchBuiltin(s: string): Option<CoreMatch> {
    if |s| < 4 || (Lower(s[..4]) != "sys." && Lower(s[..4]) != "env.") then None
    else match MatchEnd(s[4..], IsBuiltinChar)
         case None => None
         case Some(name) => Some(CoreMatch(Builtin(s[..4] + name.head), name.rest))
  }

  /**
   The whole pattern: braces, blanks, the core, blanks, braces. With blanks before it the core
   starts after them; without, the last of the opening braces is the core's.
   */
  function MatchRuntime(s: string): Option<CoreMatch> {
    var open := Take(s, IsOpen);
    var blanks := Take(open.rest, IsBlank);
    var core := if blanks.head != "" then MatchCore(blanks.rest)
                else if open.head != "" then MatchCore("{" + open.rest) else None;
    match core
    case None => None
    case Some(m) => Some(CoreMatch(m.core, Take(Take(m.rest, IsBlank).rest, IsClose).rest))
  }

  datatype Token = Char(c: char) | Hit(core: Core)

  lemma {:induction false} CoreShrinks(s: string)
    ensures MatchCore(s).Some? ==> |MatchCore(s).value.rest| < |s|
  {
    if s != [] {
      VariableShrinks(s[1..]);
      BuiltinShrinks(s[1..]);
      hide MatchVariable, MatchBuiltin;
    }
  }

  lemma {:induction false} EndShrinks(s: string, kind: char -> bool)
    ensures MatchEnd(s, kind).Some? ==> |MatchEnd(s, kind).value.rest| < |s|
  {
    TakeShrinks(s, kind);
    hide Take;
  }

  lemma {:induction false} VariableShrinks(s: string)
    ensures MatchVariable(s).Some? ==> |MatchVariable(s).value.rest| < |s|
  {
    TakeShrinks(s, IsRuntimeIdChar);
    var id := Take(s, IsRuntimeIdChar);
    hide Take, MatchEnd;
    if id.rest != "" {
      EndShrinks(id.rest[1..], IsNameChar);
    }
  }

  lemma {:induction false} BuiltinShrinks(s: string)
    ensures MatchBuiltin(s).Some? ==> |MatchBuiltin(s).value.rest| < |s|
  {
    hide MatchEnd, Lower;
    if |s| >= 4 {
      EndShrinks(s[4..], IsBuiltinChar);
    }
  }

  lemma {:induction false} TakeShrinks(s: string, kind: char -> bool)
    ensures |Take(s, kind).head| + |Take(s, kind).rest| == |s|
  {
    assert |Take(s, kind).head + Take(s, kind).rest| == |s|;
  }

  lemma {:induction false} RuntimeShrinks(s: string)
    ensures MatchRuntime(s).Some? ==> |MatchRuntime(s).value.rest| < |s|
  {
    var open := Take(s, IsOpen);
    var blanks := Take(open.rest, IsBlank);
    TakeShrinks(s, IsOpen);
    TakeShrinks(open.rest, IsBlank);
    CoreShrinks(blanks.rest);
    CoreShrinks("{" + open.rest);
    hide Take, MatchCore;
    var core := if blanks.head != "" then MatchCore(blanks.rest)
                else if open.head != "" then MatchCore("{" + open.rest) else None;
    if core.Some? {
      TakeShrinks(core.value.rest, IsBlank);
      TakeShrinks(Take(core.value.rest, IsBlank).rest, IsClose);
    }
  }

  /** `finditer`: the references and the characters between them. */
  function RuntimeScan(s: string): seq<Token>
    decreases |s|
  {
    if s == [] then []
    else match MatchRuntime(s)
         case Some(m) => RuntimeShrinks(s); [Hit(m.core)] + RuntimeScan(m.rest)
         case None => [Char(s[0])] + RuntimeScan(s[1..])
  }

  // ----- cores first -----

  /** The text as cores and characters, before anything around a core is taken. */
  function Cores(s: string): seq<Token>
    decreases |s|
  {
    if s == [] then []
    else match MatchCore(s)
         case Some(m) => CoreShrinks(s); [Hit(m.core)] + Cores(m.rest)
         case None => [Char(s[0])] + Cores(s[1..])
  }

  function Chars(s: string): seq<Token> {
    if s == [] then [] else [Char(s[0])] + Chars(s[1..])
  }

  /** What is left of `ts` after the leading characters `c`. */
  function Skip(ts: seq<Token>, c: char): seq<Token> {
    if ts != [] && ts[0] == Char(c) then Skip(ts[1..], c) else ts
  }

  datatype TokenMatch = TokenMatch(core: Core, rest: seq<Token>)

  function MatchTokens(ts: seq<Token>): Option<TokenMatch> {
    var at := Skip(Skip(ts, '{'), ' ');
    if at != [] && at[0].Hit? then Some(TokenMatch(at[0].core, Skip(Skip(at[1..], ' '), '}'))) else None
  }

  lemma {:induction false} SkipShrinks(ts: seq<Token>, c: char)
    ensures |Skip(ts, c)| <= |ts|
  {
    if ts != [] && ts[0] == Char(c) {
      SkipShrinks(ts[1..], c);
    }
  }

  lemma {:induction false} TokensShrink(ts: seq<Token>)
    ensures MatchTokens(ts).Some? ==> |MatchTokens(ts).value.rest| < |ts|
  {
    SkipShrinks(ts, '{');
    SkipShrinks(Skip(ts, '{'), ' ');
    var at := Skip(Skip(ts, '{'), ' ');
    if at != [] {
      SkipShrinks(at[1..], ' ');
      SkipShrinks(Skip(at[1..], ' '), '}');
    }
    hide Skip;
  }

  /** The runtime scan over cores and characters. */
  function TokenScan(ts: seq<Token>): seq<Token>
    decreases |ts|
  {
    if ts == [] then []
    else match MatchTokens(ts)
         case Some(m) => TokensShrink(ts); [Hit(m.core)] + TokenScan(m.rest)
         case None => [ts[0]] + TokenScan(ts[1..])
  }

  lemma {:induction false} CharStep(c: char, s: string)
    requires MatchCore([c] + s).None?
    ensures Cores([c] + s) == [Char(c)] + Cores(s)
  {
    hide MatchCore;
    assert ([c] + s)[1..] == s;
  }

  lemma {:induction false} NoBraceNoCore(c: char, s: string)
    requires c != '{'
    ensures MatchCore([c] + s).None?
  {
  }

  lemma {:induction false} CharsStep(w: string, s: string)
    requires '{' !in w
    ensures Cores(w + s) == Chars(w) + Cores(s)
  {
    hide MatchCore, Cores;
    if w == [] {
      assert w + s == s;
    } else {
      assert w + s == [w[0]] + (w[1..] + s);
      NoBraceNoCore(w[0], w[1..] + s);
      CharStep(w[0], w[1..] + s);
      CharsStep(w[1..], s);
    }
  }

  /** A brace before a brace or a blank opens no core. */
  lemma {:induction false} OuterBrace(s: string)
    requires s != [] && (s[0] == '{' || s[0] == ' ')
    ensures MatchCore("{" + s).None?
  {
    assert ("{" + s)[1..] == s;
    assert Take(s, IsRuntimeIdChar).head == "";
    if |s| >= 4 {
      assert Lower(s[..4])[0] == s[0];
    }
  }

  lemma {:induction false} OuterBraces(w: string, s: string)
    requires All(w, IsOpen) && s != [] && (s[0] == '{' || s[0] == ' ')
    ensures Cores(w + s) == Chars(w) + Cores(s)
  {
    hide MatchCore, Cores;
    if w == [] {
      assert w + s == s;
    } else {
      assert w[0] in w;
      assert w + s == "{" + (w[1..] + s);
      assert w[1..] != [] ==> w[1..][0] in w;
      OuterBrace(w[1..] + s);
      CharStep('{', w[1..] + s);
      OuterBraces(w[1..], s);
    }
  }

  /** Skipping a character in the text and in its cores is the same, but for `{`. */
  lemma {:induction false} SkipInText(s: string, c: char, kind: char -> bool)
    requires c != '{' && forall d :: kind(d) <==> d == c
    ensures Skip(Cores(s), c) == Cores(Take(s, kind).rest)
  {
    hide MatchCore;
    if s != [] {
      assert s == [s[0]] + s[1..];
      if s[0] == c {
        NoBraceNoCore(c, s[1..]);
        SkipInText(s[1..], c, kind);
      } else {
        assert Cores(s)[0] != Char(c);
      }
    }
  }

  lemma {:induction false} SkipChars(w: string, c: char, ts: seq<Token>)
    requires forall d :: d in w ==> d == c
    ensures Skip(Chars(w) + ts, c) == Skip(ts, c)
  {
    if w == [] {
      assert Chars(w) + ts == ts;
    } else {
      assert w[0] in w && forall d :: d in w[1..] ==> d in w;
      assert (Chars(w) + ts)[1..] == Chars(w[1..]) + ts;
      SkipChars(w[1..], c, ts);
    }
  }

  lemma {:induction false} FirstToken(s: string)
    requires s != [] && MatchCore(s).None?
    ensures Cores(s) == [Char(s[0])] + Cores(s[1..])
  {
    hide MatchCore;
  }

  lemma {:induction false} NoSkip(s: string, c: char)
    requires s == [] || (s[0] != '{' && s[0] != c)
    ensures Skip(Cores(s), c) == Cores(s) && (s != [] ==> Cores(s)[0] == Char(s[0]))
  {
    if s != [] {
      FirstToken(s);
    }
  }

  /** A core that starts the text, with what may follow it, or no core there. */
  lemma {:induction false} AtCore(s: string)
    ensures MatchCore(s).Some? <==> Cores(s) != [] && Cores(s)[0].Hit?
    ensures MatchCore(s).Some? ==> Cores(s)[0].core == MatchCore(s).value.core
    ensures MatchCore(s).Some? ==>
              var rest := MatchCore(s).value.rest;
              Skip(Skip(Cores(s)[1..], ' '), '}') == Cores(Take(Take(rest, IsBlank).rest, IsClose).rest)
  {
    if MatchCore(s).Some? {
      var rest := MatchCore(s).value.rest;
      hide MatchCore, Take;
      assert Cores(s)[1..] == Cores(rest);
      SkipInText(rest, ' ', IsBlank);
      SkipInText(Take(rest, IsBlank).rest, '}', IsClose);
    }
  }

  lemma {:induction false} SkipsOuterBraces(w: string, r: string)
    requires All(w, IsOpen) && r != [] && r[0] == ' ' && MatchCore(r).None?
    ensures Skip(Cores(w + r), '{') == Cores(r)
  {
    OuterBraces(w, r);
    SkipChars(w, '{', Cores(r));
    FirstToken(r);
  }

  lemma {:induction false} SkipsToCore(s: string)
    ensures var open := Take(s, IsOpen);
            var blanks := Take(open.rest, IsBlank);
            var at := Skip(Skip(Cores(s), '{'), ' ');
            && (blanks.head != "" ==> at == Cores(blanks.rest))
            && (blanks.head == "" && open.head != "" && MatchCore("{" + open.rest).Some? ==>
                  at == Cores("{" + open.rest))
            && (blanks.head == "" && (open.head == "" || MatchCore("{" + open.rest).None?) ==> at == [] || at[0].Char?)
  {
    var open := Take(s, IsOpen);
    var w, r := open.head, open.rest;
    var blanks := Take(r, IsBlank);
    if blanks.head != "" {
      BlankFirst(r);
      SkipsOuterBraces(w, r);
      SkipInText(r, ' ', IsBlank);
    } else {
      NoSkip(r, '{');
      NoSkip(r, ' ');
      if w == "" {
        assert s == r;
      } else {
        LastBrace(w, r);
        hide MatchCore, Take;
        if MatchCore("{" + r).None? {
          CharStep('{', r);
          assert ([Char('{')] + Cores(r))[1..] == Cores(r);
        } else {
          AtCore("{" + r);
        }
      }
    }
  }

  lemma {:induction false} BlankFirst(r: string)
    requires Take(r, IsBlank).head != ""
    ensures r != [] && r[0] == ' ' && MatchCore(r).None?
  {
  }

  lemma {:induction false} LastBrace(w: string, r: string)
    requires w != "" && All(w, IsOpen)
    ensures Skip(Cores(w + r), '{') == Skip(Cores("{" + r), '{')
  {
    var v := w[..|w| - 1];
    assert w[|w| - 1] in w && forall c :: c in v ==> c in w;
    assert w + r == v + ("{" + r);
    OuterBraces(v, "{" + r);
    SkipChars(v, '{', Cores("{" + r));
  }

  lemma {:induction false} MatchOnTokens(s: string)
    ensures MatchTokens(Cores(s)) ==
              match MatchRuntime(s) case None => None case Some(m) => Some(TokenMatch(m.core, Cores(m.rest)))
  {
    var open := Take(s, IsOpen);
    var blanks := Take(open.rest, IsBlank);
    SkipsToCore(s);
    AtCore(blanks.rest);
    AtCore("{" + open.rest);
    hide MatchCore, Take, Skip, Cores;
  }

  lemma {:induction false} CoreIsMatch(s: string)
    ensures MatchCore(s).Some? ==> MatchTokens(Cores(s)).Some?
  {
    AtCore(s);
  }

  /** Finding the cores first and then what surrounds them gives the runtime scan. */
  lemma {:induction false} ScanOnTokens(s: string)
    ensures RuntimeScan(s) == TokenScan(Cores(s))
    decreases |s|
  {
    if s != [] {
      MatchOnTokens(s);
      if MatchRuntime(s).Some? {
        RuntimeShrinks(s);
        hide MatchTokens, MatchRuntime, MatchCore;
        ScanOnTokens(MatchRuntime(s).value.rest);
        assert Cores(s) != [];
      } else {
        CoreIsMatch(s);
        FirstToken(s);
        hide MatchTokens, MatchRuntime, MatchCore, Cores;
        ScanOnTokens(s[1..]);
      }
    }
  }

  // ----- renaming in a scan -----

  function RenamedToken(t: Token, rename: string -> string): Token {
    if t.Hit? && t.core.Variable? then Hit(t.core.(id := rename(t.core.id))) else t
  }

  function RenameTokens(ts: seq<Token>, rename: string -> string): seq<Token> {
    if ts == [] then [] else [RenamedToken(ts[0], rename)] + RenameTokens(ts[1..], rename)
  }

  lemma {:induction false} RenameAppend(a: seq<Token>, b: seq<Token>, rename: string -> string)
    ensures RenameTokens(a + b, rename) == RenameTokens(a, rename) + RenameTokens(b, rename)
  {
    if a == [] {
      assert a + b == b;
    } else {
      assert (a + b)[1..] == a[1..] + b;
      RenameAppend(a[1..], b, rename);
    }
  }

  lemma {:induction false} RenameChars(s: string, rename: string -> string)
    ensures RenameTokens(Chars(s), rename) == Chars(s)
  {
    if s != [] {
      RenameChars(s[1..], rename);
      assert Chars(s)[1..] == Chars(s[1..]);
    }
  }

  lemma {:induction false} SkipRenamed(ts: seq<Token>, c: char, rename: string -> string)
    ensures Skip(RenameTokens(ts, rename), c) == RenameTokens(Skip(ts, c), rename)
  {
    if ts != [] {
      assert RenameTokens(ts, rename)[1..] == RenameTokens(ts[1..], rename);
      if ts[0] == Char(c) {
        SkipRenamed(ts[1..], c, rename);
      }
    }
  }

  lemma {:induction false} MatchRenamed(ts: seq<Token>, rename: string -> string)
    ensures MatchTokens(RenameTokens(ts, rename)) ==
              match MatchTokens(ts)
              case None => None
              case Some(m) => Some(TokenMatch(RenamedToken(Hit(m.core), rename).core, RenameTokens(m.rest, rename)))
  {
    SkipRenamed(ts, '{', rename);
    SkipRenamed(Skip(ts, '{'), ' ', rename);
    var at := Skip(Skip(ts, '{'), ' ');
    if at != [] {
      assert RenameTokens(at, rename)[1..] == RenameTokens(at[1..], rename);
      SkipRenamed(at[1..], ' ', rename);
      SkipRenamed(Skip(at[1..], ' '), '}', rename);
    }
    hide Skip;
  }

  lemma {:induction false} ScanRenamed(ts: seq<Token>, rename: string -> string)
    ensures TokenScan(RenameTokens(ts, rename)) == RenameTokens(TokenScan(ts), rename)
    decreases |ts|
  {
    if ts != [] {
      MatchRenamed(ts, rename);
      TokensShrink(ts);
      hide MatchTokens;
      match MatchTokens(ts) {
        case Some(m) =>
          ScanRenamed(m.rest, rename);
          assert TokenScan(ts)[1..] == TokenScan(m.rest);
        case None =>
          ScanRenamed(ts[1..], rename);
          assert TokenScan(ts)[1..] == TokenScan(ts[1..]);
          assert RenameTokens(ts, rename)[1..] == RenameTokens(ts[1..], rename);
      }
    }
  }
}
