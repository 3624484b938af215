/** The migration's renaming of references, as the runtime sees it. */
module Resolution {
  import opened Wrappers
  import opened Text
  import opened RefScan
  import opened RuntimeRefs

  // ----- references of the migration as the runtime reads them -----

  predicate IsRuntimeId(id: string) {
    id != "" && All(id, IsRuntimeIdChar)
  }

  /** The runtime pattern finds this reference. */
  predicate Compatible(r: Ref) {
    r.blanks == "" && r.gap == "" && IsRuntimeId(r.id)
  }

  function RefTokens(r: Ref): seq<Token>
    requires r.braces != "" && r.close != ""
  {
    if Compatible(r) then Chars(r.braces[1..]) + [Hit(Variable(r.id, r.name))] + Chars(r.close[1..])
    else Chars(r.Text())
  }

  lemma {:induction false} CharsAppend(a: string, b: string)
    ensures Chars(a + b) == Chars(a) + Chars(b)
  {
    if a == [] {
      assert a + b == b;
    } else {
      assert (a + b)[1..] == a[1..] + b;
      CharsAppend(a[1..], b);
    }
  }

  lemma {:induction false} MatchesVariable(id: string, name: string, rest: string)
    requires IsRuntimeId(id) && name != "" && All(name, IsNameChar)
    ensures MatchCore("{" + (id + ("@" + (name + ("}" + rest))))) == Some(CoreMatch(Variable(id, name), rest))
  {
    var s2 := name + ("}" + rest);
    var s1 := "@" + s2;
    TakeExact(id, s1, IsRuntimeIdChar);
    TakeExact(name, "}" + rest, IsNameChar);
    hide Take, All;
    assert s1[1..] == s2;
    assert ("}" + rest)[1..] == rest;
    assert ("{" + (id + s1))[1..] == id + s1;
  }

  /** Text that starts with an id before `@` is not a `sys.` or `env.` variable. */
  lemma {:induction false} NoBuiltin(id: string, rest: string)
    requires All(id, IsIdChar) && rest != [] && (rest[0] == '@' || RefScan.IsOpen(rest[0]) || IsSpace(rest[0]))
    ensures MatchBuiltin(id + rest).None?
  {
    var s := id + rest;
    if |s| >= 4 {
      var low := Lower(s[..4]);
      if |id| > 3 {
        assert id[3] in id && s[3] == id[3];
        assert low[3] == LowerChar(s[3]);
        assert low[3] != '.';
      } else {
        assert s[|id|] == rest[0];
        assert low[|id|] == LowerChar(rest[0]);
        assert low[|id|] == rest[0];
      }
      assert "sys."[3] == '.' && "env."[3] == '.';
    }
  }

  /** Blanks before the name's closing brace, blanks before the id, or a `-` in the id hide a reference. */
  lemma {:induction false} HidesVariable(r: Ref, rest: string)
    requires ValidRef(r) && !Compatible(r) && (rest == [] || rest[0] != '}')
    ensures MatchCore("{" + (r.blanks + (r.id + ("@" + (r.name + (r.gap + (r.close + rest))))))).None?
  {
    var s4 := r.gap + (r.close + rest);
    var s3 := "@" + (r.name + s4);
    var s2 := r.id + s3;
    var s1 := r.blanks + s2;
    assert ("{" + s1)[1..] == s1;
    if r.blanks != "" {
      assert r.blanks[0] in r.blanks && s1[0] == r.blanks[0];
      SpaceHides(s1);
    } else {
      assert s1 == s2;
      NoBuiltin(r.id, s3);
      assert r.close[0] in r.close;
      HidesInside(r.id, r.name, r.gap, r.close + rest);
    }
  }

  lemma {:induction false} SpaceHides(s: string)
    requires s != [] && IsSpace(s[0])
    ensures MatchVariable(s).None? && MatchBuiltin(s).None?
  {
    assert Take(s, IsRuntimeIdChar).head == "";
    NoBuiltin("", s);
    assert "" + s == s;
  }

  lemma {:induction false} HidesInside(id: string, name: string, gap: string, rest: string)
    requires id != "" && All(id, IsIdChar) && name != "" && All(name, IsNameChar) && All(gap, IsSpace)
    requires !IsRuntimeId(id) || gap != ""
    requires rest != [] && rest[0] == '}'
    ensures MatchVariable(id + ("@" + (name + (gap + rest)))).None?
  {
    var s2 := name + (gap + rest);
    var s := id + ("@" + s2);
    var t := Take(s, IsRuntimeIdChar);
    TakeLocal(id, "@" + s2, IsRuntimeIdChar);
    var own := Take(id, IsRuntimeIdChar);
    if own.rest == [] {
      assert own.head + [] == own.head;
      assert own.rest + ("@" + s2) == "@" + s2;
      assert ("@" + s2)[1..] == s2;
      assert gap[0] in gap && (gap + rest)[0] == gap[0];
      TakeExact(name, gap + rest, IsNameChar);
    } else {
      assert t.rest[0] == own.rest[0];
      assert own.rest[0] in own.head + own.rest;
    }
  }

  /** The part of a reference after its last opening brace. */
  function Inside(r: Ref): string {
    r.blanks + (r.id + ("@" + (r.name + (r.gap + r.close))))
  }

  lemma {:induction false} RefSplits(r: Ref, rest: string)
    requires ValidRef(r)
    ensures r.Text() + rest == r.braces[1..] + ("{" + (Inside(r) + rest))
    ensures r.Text() == r.braces[1..] + ("{" + Inside(r))
    ensures All(r.braces[1..], IsOpen) && '{' !in Inside(r)
  {
    var w := r.braces[1..];
    assert forall c :: c in w ==> c in r.braces;
    assert r.braces == w + "{" by {
      assert forall i :: 0 <= i < |r.braces| ==> r.braces[i] in r.braces;
    }
    InsideHasNoBrace(r);
    hide All, Inside;
    assert r.Text() == r.braces + Inside(r) by {
      assert r.Text() == r.braces + (r.blanks + (r.id + ("@" + (r.name + (r.gap + r.close)))));
    }
  }

  lemma {:induction false} InsideHasNoBrace(r: Ref)
    requires ValidRef(r)
    ensures '{' !in Inside(r)
    ensures Inside(r) == r.blanks + (r.id + ("@" + (r.name + (r.gap + r.close))))
  {
  }

  lemma {:induction false} InsideBefore(r: Ref, rest: string)
    ensures Inside(r) + rest == r.blanks + (r.id + ("@" + (r.name + (r.gap + (r.close + rest)))))
  {
  }

  lemma {:induction false} CompatibleInside(r: Ref, rest: string)
    requires ValidRef(r) && Compatible(r)
    ensures Inside(r) + rest == r.id + ("@" + (r.name + ("}" + (r.close[1..] + rest)))) && '{' !in r.close[1..]
  {
    InsideBefore(r, rest);
    var c := r.close[1..];
    assert r.close[0] in r.close && forall d :: d in c ==> d in r.close;
    assert r.close == "}" + c;
    hide All, Inside, IsRuntimeId;
    assert r.close + rest == "}" + (c + rest);
  }

  lemma {:induction false} CompatibleTokens(r: Ref, rest: string)
    requires ValidRef(r) && Compatible(r)
    ensures Cores("{" + (Inside(r) + rest)) == [Hit(Variable(r.id, r.name))] + (Chars(r.close[1..]) + Cores(rest))
  {
    CompatibleInside(r, rest);
    MatchesVariable(r.id, r.name, r.close[1..] + rest);
    CharsStep(r.close[1..], rest);
    hide MatchCore, Inside, All;
  }

  lemma {:induction false} HiddenTokens(r: Ref, rest: string)
    requires ValidRef(r) && !Compatible(r) && (rest == [] || rest[0] != '}')
    ensures Cores("{" + (Inside(r) + rest)) == Chars("{" + Inside(r)) + Cores(rest)
  {
    HidesVariable(r, rest);
    InsideBefore(r, rest);
    InsideHasNoBrace(r);
    CharStep('{', Inside(r) + rest);
    CharsStep(Inside(r), rest);
    hide MatchCore, Inside, All;
    assert ("{" + Inside(r))[1..] == Inside(r);
  }

  lemma {:induction false} FoundTokens(r: Ref, rest: string)
    requires ValidRef(r) && (rest == [] || rest[0] != '}')
    ensures Cores(r.Text() + rest) == RefTokens(r) + Cores(rest)
  {
    var w := r.braces[1..];
    RefSplits(r, rest);
    OuterBraces(w, "{" + (Inside(r) + rest));
    hide Cores, Chars, Inside, All, Compatible, ValidRef, IsOpen;
    if Compatible(r) {
      CompatibleTokens(r, rest);
      FourParts(Chars(w), [Hit(Variable(r.id, r.name))], Chars(r.close[1..]), Cores(rest));
    } else {
      HiddenTokens(r, rest);
      CharsAppend(w, "{" + Inside(r));
      FourParts(Chars(w), Chars("{" + Inside(r)), [], Cores(rest));
    }
  }

  lemma {:induction false} FourParts(a: seq<Token>, b: seq<Token>, c: seq<Token>, d: seq<Token>)
    ensures a + (b + (c + d)) == a + b + c + d && a + (b + d) == a + b + d
  {
  }

  // ----- plain text -----

  lemma {:induction false} CanonicalSuffix(ps: seq<Piece>, n: nat)
    requires Canonical(ps) && n <= |ps|
    ensures Canonical(ps[n..])
  {
    hide MatchRef, ValidRef;
    if n > 0 {
      CanonicalSuffix(ps[1..], n - 1);
      assert ps[1..][n - 1..] == ps[n..];
    } else {
      assert ps[0..] == ps;
    }
  }

  lemma {:induction false} RenderSuffix(ps: seq<Piece>, n: nat)
    requires n <= |Lead(ps)|
    ensures n <= |ps| && n <= |Render(ps)| && Render(ps[n..]) == Render(ps)[n..]
  {
    if n > 0 {
      RenderSuffix(ps[1..], n - 1);
      assert ps[1..][n - 1..] == ps[n..];
      assert Render(ps) == [ps[0].c] + Render(ps[1..]);
      assert Render(ps)[n..] == Render(ps[1..])[n - 1..];
    } else {
      assert ps[0..] == ps;
    }
  }

  lemma {:induction false} RenameSuffix(ps: seq<Piece>, n: nat, rename: string -> string)
    requires n <= |ps|
    ensures |RenameAll(ps, rename)| == |ps| && RenameAll(ps, rename)[n..] == RenameAll(ps[n..], rename)
  {
    RenameKeepsLead(ps, rename);
    if n > 0 {
      RenameSuffix(ps[1..], n - 1, rename);
      assert ps[1..][n - 1..] == ps[n..];
      assert RenameAll(ps, rename)[n..] == RenameAll(ps[1..], rename)[n - 1..];
    } else {
      assert ps[0..] == ps;
    }
  }

  /** A core lies within the text up to the next `{`. */
  lemma {:induction false} CoreLocal(u: string, t: string)
    requires OpensOrEnds(t)
    ensures MatchCore("{" + (u + t)) ==
              match MatchCore("{" + u) case None => None case Some(m) => Some(CoreMatch(m.core, m.rest + t))
    ensures MatchCore("{" + u).Some? ==> IsSuffix(MatchCore("{" + u).value.rest, u)
  {
    assert ("{" + (u + t))[1..] == u + t && ("{" + u)[1..] == u;
    VariableLocal(u, t);
    BuiltinLocal(u, t);
    VariableIsSuffix(u);
    BuiltinIsSuffix(u);
    hide MatchVariable, MatchBuiltin, IsSuffix;
  }

  ghost predicate IsSuffix(v: string, u: string) {
    |v| <= |u| && u[|u| - |v|..] == v
  }

  lemma {:induction false} SuffixOfSuffix(u: string, v: string, w: string)
    requires IsSuffix(v, u) && IsSuffix(w, v)
    ensures IsSuffix(w, u)
  {
  }

  lemma {:induction false} TakeIsSuffix(u: string, kind: char -> bool)
    ensures IsSuffix(Take(u, kind).rest, u)
  {
    var t := Take(u, kind);
    assert u == t.head + t.rest;
  }

  lemma {:induction false} EndLocal(u: string, t: string, kind: char -> bool)
    requires OpensOrEnds(t) && !kind('{')
    ensures MatchEnd(u + t, kind)
         == match MatchEnd(u, kind) case None => None case Some(m) => Some(Taken(m.head, m.rest + t))
  {
    var name := Take(u, kind);
    TakeLocal(u, t, kind);
    hide Take, All;
    Continued(name.rest, t);
  }

  lemma {:induction false} Continued(s: string, t: string)
    ensures s == "" ==> s + t == t
    ensures s != "" ==> (s + t)[0] == s[0] && (s + t)[1..] == s[1..] + t
  {
  }

  lemma {:induction false} EndIsSuffix(u: string, kind: char -> bool)
    ensures MatchEnd(u, kind).Some? ==> IsSuffix(MatchEnd(u, kind).value.rest, u)
  {
    TakeIsSuffix(u, kind);
    var rest := Take(u, kind).rest;
    hide Take;
    if rest != "" {
      SuffixOfSuffix(u, rest, rest[1..]);
    }
  }

  lemma {:induction false} VariableLocal(u: string, t: string)
    requires OpensOrEnds(t)
    ensures MatchVariable(u + t) ==
              match MatchVariable(u) case None => None case Some(m) => Some(CoreMatch(m.core, m.rest + t))
  {
    var id := Take(u, IsRuntimeIdChar);
    TakeLocal(u, t, IsRuntimeIdChar);
    hide Take, MatchEnd;
    if id.rest == "" {
      assert id.rest + t == t;
    } else {
      assert (id.rest + t)[0] == id.rest[0] && (id.rest + t)[1..] == id.rest[1..] + t;
      EndLocal(id.rest[1..], t, IsNameChar);
    }
  }

  lemma {:induction false} VariableIsSuffix(u: string)
    ensures MatchVariable(u).Some? ==> IsSuffix(MatchVariable(u).value.rest, u)
  {
    TakeIsSuffix(u, IsRuntimeIdChar);
    var rest := Take(u, IsRuntimeIdChar).rest;
    hide Take, MatchEnd;
    if rest != "" && MatchEnd(rest[1..], IsNameChar).Some? {
      EndIsSuffix(rest[1..], IsNameChar);
      SuffixOfSuffix(u, rest, rest[1..]);
      SuffixOfSuffix(u, rest[1..], MatchEnd(rest[1..], IsNameChar).value.rest);
    }
  }

  lemma {:induction false} BuiltinLocal(u: string, t: string)
    requires OpensOrEnds(t)
    ensures MatchBuiltin(u + t) ==
              match MatchBuiltin(u) case None => None case Some(m) => Some(CoreMatch(m.core, m.rest + t))
  {
    hide MatchEnd;
    if |u| < 4 {
      if |u + t| >= 4 {
        assert Lower((u + t)[..4])[|u|] == '{';
        assert '{' !in "sys." && '{' !in "env.";
      }
    } else {
      hide Lower;
      assert (u + t)[..4] == u[..4] && (u + t)[4..] == u[4..] + t;
      EndLocal(u[4..], t, IsBuiltinChar);
    }
  }

  lemma {:induction false} BuiltinIsSuffix(u: string)
    ensures MatchBuiltin(u).Some? ==> IsSuffix(MatchBuiltin(u).value.rest, u)
  {
    hide MatchEnd, Lower;
    if MatchBuiltin(u).Some? {
      EndIsSuffix(u[4..], IsBuiltinChar);
      SuffixOfSuffix(u, u[4..], MatchEnd(u[4..], IsBuiltinChar).value.rest);
    }
  }

  lemma {:induction false} VariableBody(u: string)
    requires MatchVariable(u).Some?
    ensures u != [] && u[0] != '{' && MatchBody(u, "{").Some?
  {
    var id := Take(u, IsRuntimeIdChar);
    assert id.head[0] in id.head && u[0] == id.head[0];
    WiderTake(u);
    EndIsTail(id.rest[1..], Ref("{", "", id.head, "", "", ""));
    hide Take, All, MatchTail, MatchEnd;
  }

  /** Before `@` the migration reads the same id as the runtime. */
  lemma {:induction false} WiderTake(u: string)
    requires MatchVariable(u).Some?
    ensures Take(u, IsSpace) == Taken("", u) && Take(u, IsIdChar) == Take(u, IsRuntimeIdChar)
  {
    var id := Take(u, IsRuntimeIdChar);
    assert id.rest[0] == '@' by {
      hide Take, MatchEnd;
    }
    assert id.head[0] in id.head && u[0] == id.head[0];
    assert All(id.head, IsIdChar);
    TakeExact(id.head, id.rest, IsIdChar);
    hide MatchEnd;
  }

  /** A component's variable that the runtime finds is a reference of the migration. */
  lemma {:induction false} VariableIsRef(s: string)
    requires MatchCore(s).Some? && MatchCore(s).value.core.Variable?
    ensures MatchRef(s).Some?
  {
    var u := s[1..];
    assert MatchVariable(u).Some? by {
      hide MatchVariable, MatchEnd;
    }
    VariableBody(u);
    TakeExact("{", u, IsOpen);
    hide Take, MatchBody, MatchVariable, MatchBuiltin;
    assert s == "{" + u;
  }

  lemma {:induction false} EndIsTail(v: string, r: Ref)
    requires MatchEnd(v, IsNameChar).Some?
    ensures MatchTail(v, r).Some?
  {
    var name := Take(v, IsNameChar);
    TakeExact("", name.rest, IsSpace);
    assert "" + name.rest == name.rest;
    assert Take(name.rest, IsClose).head != "";
    hide Take;
  }

  // ----- piece by piece -----

  /** The core that a plain brace opens, if it opens one. */
  function Opened(ps: seq<Piece>): Option<CoreMatch>
    requires ps != []
  {
    if ps[0] == Plain('{') then MatchCore("{" + Lead(ps[1..])) else None
  }

  /** The runtime's reading of the first piece, or of the plain pieces that make up a core. */
  function Head(ps: seq<Piece>): seq<Token>
    requires ps != []
  {
    match ps[0]
    case Found(r) => if r.braces != "" && r.close != "" then RefTokens(r) else []
    case Plain(c) => if Opened(ps).Some? then [Hit(Opened(ps).value.core)] else [Char(c)]
  }

  /** The number of pieces that `Head` reads. */
  function Reads(ps: seq<Piece>): int
    requires ps != []
  {
    if Opened(ps).Some? then 1 + |Lead(ps[1..])| - |Opened(ps).value.rest| else 1
  }

  lemma {:induction false} BraceIsPlain(ps: seq<Piece>)
    requires ps != [] && Canonical(ps) && ps[0] == Plain('{')
    ensures Render(ps) == "{" + Render(ps[1..]) && MatchRef(Render(ps)).None? && Canonical(ps[1..])
  {
    hide MatchRef, ValidRef;
  }

  lemma {:induction false} OpenedWhere(ps: seq<Piece>)
    requires ps != [] && Canonical(ps) && ps[0] == Plain('{')
    ensures |Lead(ps[1..])| <= |Render(ps[1..])|
    ensures Opened(ps).None? ==> MatchCore(Render(ps)).None?
    ensures Opened(ps).Some? ==> IsSuffix(Opened(ps).value.rest, Lead(ps[1..]))
    ensures Opened(ps).Some? ==>
              var m := Opened(ps).value;
              MatchCore(Render(ps)) == Some(CoreMatch(m.core, m.rest + Render(ps[1..])[|Lead(ps[1..])|..]))
  {
    hide MatchCore, Lead, MatchRef, Canonical, Render, OpensOrEnds, IsSuffix;
    var rest := ps[1..];
    var u := Lead(rest);
    BraceIsPlain(ps);
    LeadSplits(rest);
    var t := Render(rest)[|u|..];
    CoreLocal(u, t);
    assert Render(rest) == u + t;
  }

  /** A core opened by a plain brace ends within the plain text, and is no component's variable. */
  lemma {:induction false} OpenedCore(ps: seq<Piece>)
    requires ps != [] && Canonical(ps) && ps[0] == Plain('{')
    ensures 1 <= Reads(ps) <= 1 + |Lead(ps[1..])| <= 1 + |Render(ps[1..])|
    ensures Opened(ps).None? ==> MatchCore(Render(ps)).None?
    ensures Opened(ps).Some? ==>
              MatchCore(Render(ps)) == Some(CoreMatch(Opened(ps).value.core, Render(ps[1..])[Reads(ps) - 1..]))
    ensures Opened(ps).Some? ==> Opened(ps).value.core.Builtin?
  {
    hide MatchCore, Lead, MatchRef, Canonical, Render, Opened, OpensOrEnds;
    OpenedWhere(ps);
    if Opened(ps).Some? {
      OpenedIsBuiltin(ps);
      BraceIsPlain(ps);
      LeadSplits(ps[1..]);
      SuffixOfText(Opened(ps).value.rest, Lead(ps[1..]), Render(ps[1..]));
    }
  }

  lemma {:induction false} OpenedIsBuiltin(ps: seq<Piece>)
    requires ps != [] && Canonical(ps) && ps[0] == Plain('{') && Opened(ps).Some?
    ensures Opened(ps).value.core.Builtin?
  {
    hide MatchCore, Lead, MatchRef, Canonical, Render, Opened, IsSuffix;
    OpenedWhere(ps);
    BraceIsPlain(ps);
    if Opened(ps).value.core.Variable? {
      VariableIsRef(Render(ps));
      assert false;
    }
  }

  lemma {:induction false} SuffixOfText(v: string, u: string, s: string)
    requires IsSuffix(v, u) && u <= s
    ensures |v| <= |u| && v + s[|u|..] == s[|u| - |v|..]
  {
    assert s == u + s[|u|..];
    SuffixIn(v, u, s[|u|..]);
  }

  lemma {:induction false} SuffixIn(v: string, u: string, t: string)
    requires IsSuffix(v, u)
    ensures (u + t)[|u| - |v|..] == v + t
  {
  }

  lemma {:induction false} CoreFirst(s: string)
    requires MatchCore(s).Some?
    ensures Cores(s) == [Hit(MatchCore(s).value.core)] + Cores(MatchCore(s).value.rest)
  {
    hide MatchCore;
    assert s != [] by {
      CoreShrinks(s);
    }
  }

  lemma {:induction false} StepOpened(ps: seq<Piece>)
    requires ps != [] && Canonical(ps) && ps[0] == Plain('{') && Opened(ps).Some?
    ensures 1 <= Reads(ps) <= |ps|
    ensures Cores(Render(ps)) == [Hit(Opened(ps).value.core)] + Cores(Render(ps[Reads(ps)..]))
  {
    var rest, n := ps[1..], Reads(ps);
    OpenedCore(ps);
    BraceIsPlain(ps);
    LeadSplits(rest);
    hide MatchCore, Lead, MatchRef, Canonical, Opened, Reads, Cores, Render;
    RenderSuffix(rest, n - 1);
    assert rest[n - 1..] == ps[n..];
    CoreFirst(Render(ps));
  }

  lemma {:induction false} StepPlain(ps: seq<Piece>)
    requires ps != [] && Canonical(ps) && ps[0].Plain?
    ensures 1 <= Reads(ps) <= |ps|
    ensures Cores(Render(ps)) == Head(ps) + Cores(Render(ps[Reads(ps)..]))
  {
    if Opened(ps).Some? {
      StepOpened(ps);
    } else {
      var c, rest := ps[0].c, Render(ps[1..]);
      assert Render(ps) == [c] + rest;
      if c == '{' {
        OpenedCore(ps);
      } else {
        NoBraceNoCore(c, rest);
      }
      hide MatchCore, Canonical, Opened, Cores, Render;
      CharStep(c, rest);
    }
  }

  lemma {:induction false} StepFound(ps: seq<Piece>)
    requires ps != [] && Canonical(ps) && ps[0].Found?
    ensures Cores(Render(ps)) == Head(ps) + Cores(Render(ps[1..]))
  {
    hide MatchRef, Cores;
    FoundTokens(ps[0].r, Render(ps[1..]));
  }

  // ----- renaming -----

  /** Ids stay ids, and the runtime's ids stay the runtime's ids. */
  ghost predicate KeepsRuntimeIds(rename: string -> string) {
    KeepsIds(rename) && forall id :: id != "" && All(id, IsIdChar) ==> (IsRuntimeId(rename(id)) <==> IsRuntimeId(id))
  }

  /** A renamed reference is one that the runtime finds. */
  predicate Faithful(p: Piece, rename: string -> string) {
    p.Found? ==> rename(p.r.id) == p.r.id || Compatible(p.r)
  }

  predicate AllFaithful(ps: seq<Piece>, rename: string -> string) {
    forall p :: p in ps ==> Faithful(p, rename)
  }

  lemma {:induction false} PlainStep(ps: seq<Piece>, rename: string -> string)
    requires ps != [] && Canonical(ps) && ps[0].Plain? && Canonical(RenameAll(ps, rename))
    ensures 1 <= Reads(ps) <= |ps|
    ensures Cores(Render(ps)) == Head(ps) + Cores(Render(ps[Reads(ps)..]))
    ensures Cores(Render(RenameAll(ps, rename))) == Head(ps) + Cores(Render(RenameAll(ps[Reads(ps)..], rename)))
    ensures RenameTokens(Head(ps), rename) == Head(ps) && |Head(ps)| == 1
    ensures Canonical(ps[Reads(ps)..]) && Canonical(RenameAll(ps[Reads(ps)..], rename))
  {
    var qs := RenameAll(ps, rename);
    StepPlain(ps);
    StepPlain(qs);
    PlainHead(ps, rename);
    var n := Reads(ps);
    RenameSuffix(ps, n, rename);
    CanonicalSuffix(ps, n);
    CanonicalSuffix(qs, n);
    hide Head, Reads, Cores, Canonical, Opened, Render;
  }

  lemma {:induction false} PlainHead(ps: seq<Piece>, rename: string -> string)
    requires ps != [] && Canonical(ps) && ps[0].Plain?
    ensures RenameAll(ps, rename) != [] && RenameAll(ps, rename)[0] == ps[0]
    ensures Reads(RenameAll(ps, rename)) == Reads(ps) && Head(RenameAll(ps, rename)) == Head(ps)
    ensures RenameTokens(Head(ps), rename) == Head(ps) && |Head(ps)| == 1
  {
    hide Canonical, Lead, MatchCore, Render;
    var qs := RenameAll(ps, rename);
    RenameKeepsLead(ps[1..], rename);
    assert qs[1..] == RenameAll(ps[1..], rename);
    if ps[0] == Plain('{') && Opened(ps).Some? {
      OpenedIsBuiltin(ps);
    }
    assert Head(ps)[1..] == [];
  }

  lemma {:induction false} FoundStep(ps: seq<Piece>, rename: string -> string)
    requires ps != [] && Canonical(ps) && ps[0].Found? && Canonical(RenameAll(ps, rename))
    ensures var r, q := ps[0].r, ps[0].r.(id := rename(ps[0].r.id));
            && ValidRef(r) && ValidRef(q)
            && Cores(Render(ps)) == RefTokens(r) + Cores(Render(ps[1..]))
            && Cores(Render(RenameAll(ps, rename))) == RefTokens(q) + Cores(Render(RenameAll(ps[1..], rename)))
    ensures Canonical(ps[1..]) && Canonical(RenameAll(ps[1..], rename))
  {
    var qs := RenameAll(ps, rename);
    StepFound(ps);
    StepFound(qs);
    assert qs[1..] == RenameAll(ps[1..], rename);
    hide Cores, RefTokens, Render, MatchRef;
  }

  lemma {:induction false} RenameBetween(a: string, h: Token, b: string, rename: string -> string)
    ensures RenameTokens(Chars(a) + [h] + Chars(b), rename) == Chars(a) + [RenamedToken(h, rename)] + Chars(b)
  {
    RenameChars(a, rename);
    RenameChars(b, rename);
    RenameAppend(Chars(a) + [h], Chars(b), rename);
    RenameAppend(Chars(a), [h], rename);
    hide Chars, RenamedToken;
    assert [h][1..] == [];
  }

  lemma {:induction false} RefTokensRenamed(r: Ref, rename: string -> string)
    requires ValidRef(r) && KeepsRuntimeIds(rename) && Faithful(Found(r), rename)
    ensures RefTokens(r.(id := rename(r.id))) == RenameTokens(RefTokens(r), rename)
  {
    if Compatible(r) {
      var q := r.(id := rename(r.id));
      assert Compatible(q);
      RenameBetween(r.braces[1..], Hit(Variable(r.id, r.name)), r.close[1..], rename);
      hide Chars, All, Compatible, RenameTokens, ValidRef;
    } else {
      RenameChars(r.Text(), rename);
      assert r.(id := rename(r.id)) == r;
    }
  }

  lemma {:induction false} CoresRenamed(ps: seq<Piece>, rename: string -> string)
    requires Canonical(ps) && Canonical(RenameAll(ps, rename)) && KeepsRuntimeIds(rename) && AllFaithful(ps, rename)
    ensures Cores(Render(RenameAll(ps, rename))) == RenameTokens(Cores(Render(ps)), rename)
    decreases |ps|
  {
    if ps != [] {
      var n := if ps[0].Plain? then Reads(ps) else 1;
      if ps[0].Plain? {
        PlainStep(ps, rename);
        RenameAppend(Head(ps), Cores(Render(ps[n..])), rename);
      } else {
        FoundStep(ps, rename);
        assert Faithful(ps[0], rename);
        RefTokensRenamed(ps[0].r, rename);
        RenameAppend(RefTokens(ps[0].r), Cores(Render(ps[1..])), rename);
      }
      hide Cores, Canonical, Render, Head, RefTokens, Reads, KeepsRuntimeIds, Faithful, RenameTokens;
      CoresRenamed(ps[n..], rename);
    }
  }

  /** When every renamed reference is one the runtime finds, it finds the same references, renamed, in the same text. */
  lemma {:induction false} RuntimeScanRewritten(s: string, rename: string -> string)
    requires KeepsRuntimeIds(rename) && AllFaithful(Scan(s), rename)
    ensures RuntimeScan(RewriteRefs(s, rename)) == RenameTokens(RuntimeScan(s), rename)
  {
    ScanIsCanonical(s);
    RenderScan(s);
    RenameKeepsCanonical(Scan(s), rename);
    CoresRenamed(Scan(s), rename);
    ScanOnTokens(s);
    ScanOnTokens(RewriteRefs(s, rename));
    ScanRenamed(Cores(s), rename);
  }

  // ----- the condition is needed -----

  /** The tokens that no match of the runtime pattern takes away. */
  function Kept(ts: seq<Token>): seq<Token> {
    if ts == [] then []
    else (if ts[0] == Char('{') || ts[0] == Char('}') || ts[0] == Char(' ') then [] else [ts[0]]) + Kept(ts[1..])
  }

  lemma {:induction false} KeptAppend(a: seq<Token>, b: seq<Token>)
    ensures Kept(a + b) == Kept(a) + Kept(b)
  {
    if a == [] {
      assert a + b == b;
    } else {
      assert (a + b)[1..] == a[1..] + b;
      KeptAppend(a[1..], b);
    }
  }

  lemma {:induction false} KeptSkip(ts: seq<Token>, c: char)
    requires c == '{' || c == '}' || c == ' '
    ensures Kept(Skip(ts, c)) == Kept(ts)
  {
    if ts != [] && ts[0] == Char(c) {
      KeptSkip(ts[1..], c);
    }
  }

  lemma {:induction false} KeptScan(ts: seq<Token>)
    ensures Kept(TokenScan(ts)) == Kept(ts)
    decreases |ts|
  {
    if ts != [] {
      TokensShrink(ts);
      match MatchTokens(ts) {
        case Some(m) =>
          var at := Skip(Skip(ts, '{'), ' ');
          KeptSkip(ts, '{');
          KeptSkip(Skip(ts, '{'), ' ');
          KeptSkip(at[1..], ' ');
          KeptSkip(Skip(at[1..], ' '), '}');
          hide Skip;
          KeptScan(m.rest);
          assert TokenScan(ts)[1..] == TokenScan(m.rest);
          assert Kept(at) == [at[0]] + Kept(at[1..]);
        case None =>
          hide MatchTokens;
          KeptScan(ts[1..]);
          assert TokenScan(ts)[1..] == TokenScan(ts[1..]);
      }
    }
  }

  lemma {:induction false} KeptWord(w: string)
    requires forall c :: c in w ==> c != '{' && c != '}' && c != ' '
    ensures Kept(Chars(w)) == Chars(w)
  {
    if w != [] {
      assert w[0] in w && forall c :: c in w[1..] ==> c in w;
      KeptWord(w[1..]);
      assert Chars(w)[1..] == Chars(w[1..]);
    }
  }

  lemma {:induction false} BeforeAt(a: string, x: seq<Token>)
    ensures var s := Chars(a) + ([Char('@')] + x);
            && s[0] == Char(if a == [] then '@' else a[0])
            && (a != [] ==> s[1..] == Chars(a[1..]) + ([Char('@')] + x))
  {
  }

  lemma {:induction false} UpToAt(a: string, b: string, x: seq<Token>, y: seq<Token>)
    requires '@' !in a && '@' !in b && Chars(a) + ([Char('@')] + x) == Chars(b) + ([Char('@')] + y)
    ensures a == b
  {
    BeforeAt(a, x);
    BeforeAt(b, y);
    if a != [] && b != [] {
      hide Chars;
      UpToAt(a[1..], b[1..], x, y);
      assert a == [a[0]] + a[1..] && b == [b[0]] + b[1..];
    }
  }

  /** What is kept of a reference that stays text: its id and `@` are in it. */
  lemma {:induction false} KeptRef(r: Ref)
    requires ValidRef(r)
    ensures Kept(Chars(r.Text()))
         == Kept(Chars(r.braces + r.blanks)) + (Chars(r.id) + ([Char('@')] + Kept(Chars(r.name + (r.gap + r.close)))))
  {
    var tail := r.name + (r.gap + r.close);
    var s := r.id + ("@" + tail);
    assert r.Text() == (r.braces + r.blanks) + s;
    CharsAppend(r.braces + r.blanks, s);
    CharsAppend(r.id, "@" + tail);
    KeptWord(r.id);
    hide All;
    assert ("@" + tail)[1..] == tail;
    assert Chars("@" + tail) == [Char('@')] + Chars(tail);
    KeptAppend(Chars(r.braces + r.blanks), Chars(s));
    KeptAppend(Chars(r.id), Chars("@" + tail));
    KeptAppend([Char('@')], Chars(tail));
    assert Kept([Char('@')]) == [Char('@')] by {
      assert [Char('@')][1..] == [];
    }
  }

  lemma {:induction false} CancelPrefix(p: seq<Token>, x: seq<Token>, y: seq<Token>)
    requires p + x == p + y
    ensures x == y
  {
    assert x == (p + x)[|p|..] && y == (p + y)[|p|..];
  }

  lemma {:induction false} KeptIds(r: Ref, id: string, x: seq<Token>, y: seq<Token>)
    requires ValidRef(r) && ValidRef(r.(id := id)) && Kept(Chars(r.(id := id).Text())) + x == Kept(Chars(r.Text())) + y
    ensures id == r.id
  {
    KeptRef(r);
    KeptRef(r.(id := id));
    var p, tail := Kept(Chars(r.braces + r.blanks)), Kept(Chars(r.name + (r.gap + r.close)));
    assert '@' !in r.id && '@' !in id;
    hide All, Kept, Chars, ValidRef;
    Regroup(p, Chars(id), tail, x);
    Regroup(p, Chars(r.id), tail, y);
    CancelPrefix(p, Chars(id) + ([Char('@')] + (tail + x)), Chars(r.id) + ([Char('@')] + (tail + y)));
    UpToAt(id, r.id, tail + x, tail + y);
  }

  lemma {:induction false} Regroup(p: seq<Token>, id: seq<Token>, tail: seq<Token>, x: seq<Token>)
    ensures p + (id + ([Char('@')] + tail)) + x == p + (id + ([Char('@')] + (tail + x)))
  {
  }

  lemma {:induction false} KeptStep(
      h: seq<Token>, g: seq<Token>, x: seq<Token>, y: seq<Token>, rename: string -> string)
    requires Kept(h + x) == Kept(RenameTokens(g + y, rename))
    ensures Kept(h) + Kept(x) == Kept(RenameTokens(g, rename)) + Kept(RenameTokens(y, rename))
    ensures h == RenameTokens(g, rename) ==> Kept(x) == Kept(RenameTokens(y, rename))
  {
    KeptAppend(h, x);
    RenameAppend(g, y, rename);
    KeptAppend(RenameTokens(g, rename), RenameTokens(y, rename));
    if h == RenameTokens(g, rename) {
      CancelPrefix(Kept(h), Kept(x), Kept(RenameTokens(y, rename)));
    }
  }

  lemma {:induction false} RefIsFaithful(r: Ref, x: seq<Token>, y: seq<Token>, rename: string -> string)
    requires ValidRef(r) && ValidRef(r.(id := rename(r.id))) && KeepsRuntimeIds(rename)
    requires Kept(RefTokens(r.(id := rename(r.id)))) + x == Kept(RenameTokens(RefTokens(r), rename)) + y
    ensures Faithful(Found(r), rename)
  {
    if !Compatible(r) {
      RenameChars(r.Text(), rename);
      KeptIds(r, rename(r.id), x, y);
    }
  }

  ghost predicate Agrees(ps: seq<Piece>, rename: string -> string) {
    Kept(Cores(Render(RenameAll(ps, rename)))) == Kept(RenameTokens(Cores(Render(ps)), rename))
  }

  lemma {:induction false} PlainAgrees(ps: seq<Piece>, rename: string -> string)
    requires ps != [] && ps[0].Plain? && Canonical(ps) && Canonical(RenameAll(ps, rename)) && Agrees(ps, rename)
    ensures 1 <= Reads(ps) <= |ps| && Agrees(ps[Reads(ps)..], rename)
    ensures Canonical(ps[Reads(ps)..]) && Canonical(RenameAll(ps[Reads(ps)..], rename))
  {
    PlainStep(ps, rename);
    hide Cores, Canonical, Render, Head, Reads, RenameTokens, Kept, RenameAll;
    var rest := ps[Reads(ps)..];
    KeptStep(Head(ps), Head(ps), Cores(Render(RenameAll(rest, rename))), Cores(Render(rest)), rename);
  }

  lemma {:induction false} FoundAgrees(ps: seq<Piece>, rename: string -> string)
    requires ps != [] && ps[0].Found? && Canonical(ps) && Canonical(RenameAll(ps, rename)) && Agrees(ps, rename)
    requires KeepsRuntimeIds(rename)
    ensures Agrees(ps[1..], rename) && Faithful(ps[0], rename)
    ensures Canonical(ps[1..]) && Canonical(RenameAll(ps[1..], rename))
  {
    FoundStep(ps, rename);
    var r := ps[0].r;
    var q := r.(id := rename(r.id));
    var x, y := Cores(Render(RenameAll(ps[1..], rename))), Cores(Render(ps[1..]));
    hide Cores, Canonical, Render, RefTokens, RenameTokens, Kept, RenameAll, KeepsRuntimeIds, Faithful, ValidRef;
    KeptStep(RefTokens(q), RefTokens(r), x, y, rename);
    RefIsFaithful(r, Kept(x), Kept(RenameTokens(y, rename)), rename);
    RefTokensRenamed(r, rename);
  }

  lemma {:induction false} OnlyIfFaithful(ps: seq<Piece>, rename: string -> string)
    requires Canonical(ps) && Canonical(RenameAll(ps, rename)) && KeepsRuntimeIds(rename) && Agrees(ps, rename)
    ensures AllFaithful(ps, rename)
    decreases |ps|
  {
    if ps != [] {
      hide Canonical, Reads, KeepsRuntimeIds, RenameAll, Agrees;
      if ps[0].Plain? {
        PlainAgrees(ps, rename);
        PlainPrefix(ps);
        OnlyIfFaithful(ps[Reads(ps)..], rename);
        FaithfulBoth(ps, Reads(ps), rename);
      } else {
        FoundAgrees(ps, rename);
        OnlyIfFaithful(ps[1..], rename);
        FaithfulBoth(ps, 1, rename);
      }
    }
  }

  /** Only plain pieces are read together. */
  lemma {:induction false} PlainPrefix(ps: seq<Piece>)
    requires ps != [] && Canonical(ps) && ps[0].Plain?
    ensures 1 <= Reads(ps) <= |ps| && forall i :: 0 <= i < Reads(ps) ==> ps[i].Plain?
  {
    hide Reads, Lead, Render, Cores, MatchCore, Canonical, Head, Opened;
    StepPlain(ps);
    if ps[0] == Plain('{') {
      OpenedCore(ps);
      LeadIsPlain(ps[1..]);
    } else {
      ReadsOne(ps);
    }
  }

  lemma {:induction false} ReadsOne(ps: seq<Piece>)
    requires ps != [] && ps[0] != Plain('{')
    ensures Reads(ps) == 1
  {
  }

  lemma {:induction false} LeadIsPlain(ps: seq<Piece>)
    ensures |Lead(ps)| <= |ps| && forall i :: 0 <= i < |Lead(ps)| ==> ps[i].Plain?
  {
    if ps != [] {
      LeadIsPlain(ps[1..]);
    }
  }

  lemma {:induction false} FaithfulBoth(ps: seq<Piece>, n: nat, rename: string -> string)
    requires n <= |ps| && AllFaithful(ps[n..], rename) && forall i :: 0 <= i < n ==> Faithful(ps[i], rename)
    ensures AllFaithful(ps, rename)
  {
    forall p | p in ps ensures Faithful(p, rename) {
      var i :| 0 <= i < |ps| && ps[i] == p;
      if i >= n {
        assert ps[n..][i - n] == p;
      }
    }
  }

  // ----- main result -----

  /**
   The runtime finds the same references, renamed, and the same text between them, in the rewritten
   text exactly when every reference that is renamed is one the runtime finds.
   */
  lemma {:induction false} RewritingIsFaithful(s: string, rename: string -> string)
    requires KeepsRuntimeIds(rename)
    ensures RuntimeScan(RewriteRefs(s, rename)) == RenameTokens(RuntimeScan(s), rename)
       <==> AllFaithful(Scan(s), rename)
  {
    var t := RewriteRefs(s, rename);
    if AllFaithful(Scan(s), rename) {
      RuntimeScanRewritten(s, rename);
    }
    if RuntimeScan(t) == RenameTokens(RuntimeScan(s), rename) {
      ScanIsCanonical(s);
      RenderScan(s);
      RenameKeepsCanonical(Scan(s), rename);
      ScanOnTokens(s);
      ScanOnTokens(t);
      ScanRenamed(Cores(s), rename);
      KeptScan(Cores(t));
      KeptScan(RenameTokens(Cores(s), rename));
      OnlyIfFaithful(Scan(s), rename);
    }
  }
}
