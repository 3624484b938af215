/**
 The reference pattern of the DSL migration (agent/dsl_migration.py, `VARIABLE_REF_PATTERN`):
 one or more `{`, blanks, a component id, `@` and a variable name, blanks, one or more `}`.
 The character classes of neighbouring groups are disjoint, so a greedy left-to-right match needs
 no backtracking.
 */
module RefScan {
  import opened Wrappers
  import opened Text

  // ----- character classes -----

  predicate IsWordChar(c: char) {
    'A' <= c <= 'Z' || 'a' <= c <= 'z' || '0' <= c <= '9' || c == '_'
  }

  predicate IsIdChar(c: char) {
    IsWordChar(c) || c == ':' || c == '-'
  }

  predicate IsNameChar(c: char) {
    IsWordChar(c) || c == '.' || c == '-'
  }

  predicate IsOpen(c: char) { c == '{' }
  predicate IsClose(c: char) { c == '}' }

  // ----- matching -----

  /** A match: `braces` and `blanks` make up the first group, `@name` the third, `gap` and `close` the fourth. */
  datatype Ref = Ref(braces: string, blanks: string, id: string, name: string, gap: string, close: string) {
    function Text(): string {
      braces + (blanks + (id + ("@" + (name + (gap + close)))))
    }
  }

  datatype Matched = Matched(r: Ref, rest: string)

  /** The pattern from the variable name on. */
  function MatchTail(s: string, r: Ref): Option<Matched> {
    var name := Take(s, IsNameChar);
    var gap := Take(name.rest, IsSpace);
    var close := Take(gap.rest, IsClose);
    if name.head == "" || close.head == "" then None
    else Some(Matched(r.(name := name.head, gap := gap.head, close := close.head), close.rest))
  }

  /** The pattern after the opening braces. */
  function MatchBody(s: string, braces: string): Option<Matched> {
    var blanks := Take(s, IsSpace);
    var id := Take(blanks.rest, IsIdChar);
    if id.head == "" || id.rest == "" || id.rest[0] != '@' then None
    else MatchTail(id.rest[1..], Ref(braces, blanks.head, id.head, "", "", ""))
  }

  /** The match at the start of `s`, if any, and what follows it. */
  function MatchRef(s: string): Option<Matched> {
    var braces := Take(s, IsOpen);
    if braces.head == "" then None else MatchBody(braces.rest, braces.head)
  }

  /** The shape the pattern describes. */
  ghost predicate ValidRef(r: Ref) {
    && r.braces != "" && All(r.braces, IsOpen) && All(r.blanks, IsSpace)
    && r.id != "" && All(r.id, IsIdChar) && r.name != "" && All(r.name, IsNameChar)
    && All(r.gap, IsSpace) && r.close != "" && All(r.close, IsClose)
  }

  lemma {:induction false} TailSplits(s: string, r: Ref)
    requires MatchTail(s, r).Some?
    ensures var m := MatchTail(s, r).value;
            && m.r == r.(name := m.r.name, gap := m.r.gap, close := m.r.close)
            && s == m.r.name + (m.r.gap + (m.r.close + m.rest))
            && m.r.name != "" && All(m.r.name, IsNameChar) && All(m.r.gap, IsSpace)
            && m.r.close != "" && All(m.r.close, IsClose)
            && (m.rest == [] || m.rest[0] != '}')
  {
    hide Take, All;
  }

  lemma {:induction false} Reassociate(a: string, b: string, c: string, d: string, e: string, f: string, rest: string)
    ensures a + (b + (c + ("@" + (d + (e + f))))) + rest == a + (b + (c + ("@" + (d + (e + (f + rest))))))
  {
  }

  /** A match is a prefix of the required shape, and takes all the closing braces there are. */
  lemma {:induction false} MatchSplits(s: string)
    requires MatchRef(s).Some?
    ensures var m := MatchRef(s).value;
            && m.r.Text() + m.rest == s && |m.rest| < |s| && ValidRef(m.r) && (m.rest == [] || m.rest[0] != '}')
  {
    var m := MatchRef(s).value;
    var braces := Take(s, IsOpen);
    var blanks := Take(braces.rest, IsSpace);
    var id := Take(blanks.rest, IsIdChar);
    TailSplits(id.rest[1..], Ref(braces.head, blanks.head, id.head, "", "", ""));
    hide Take, All, MatchTail;
    assert id.rest == "@" + id.rest[1..];
    Reassociate(m.r.braces, m.r.blanks, m.r.id, m.r.name, m.r.gap, m.r.close, m.rest);
    assert s == m.r.braces + (m.r.blanks + (m.r.id + ("@" + (m.r.name + (m.r.gap + (m.r.close + m.rest))))));
  }

  lemma {:induction false} StartsWithin(s: string, t: string, kind: char -> bool)
    requires All(s, kind) && s != []
    ensures kind((s + t)[0])
  {
    assert s[0] in s && (s + t)[0] == s[0];
  }

  lemma {:induction false} TailComplete(r: Ref, rest: string, partial: Ref)
    requires ValidRef(r) && (rest == [] || rest[0] != '}')
    requires partial == r.(name := "", gap := "", close := "")
    ensures MatchTail(r.name + (r.gap + (r.close + rest)), partial) == Some(Matched(r, rest))
  {
    var s2 := r.close + rest;
    var s1 := r.gap + s2;
    StartsWithin(r.close, rest, IsClose);
    if r.gap != [] {
      StartsWithin(r.gap, s2, IsSpace);
    } else {
      assert s1 == s2;
    }
    TakeExact(r.name, s1, IsNameChar);
    TakeExact(r.gap, s2, IsSpace);
    TakeExact(r.close, rest, IsClose);
    hide Take, All;
  }

  /** Conversely, a prefix of that shape which ends where the braces end is found, group by group. */
  lemma {:induction false} MatchComplete(r: Ref, rest: string)
    requires ValidRef(r) && (rest == [] || rest[0] != '}')
    ensures MatchRef(r.Text() + rest) == Some(Matched(r, rest))
  {
    Reassociate(r.braces, r.blanks, r.id, r.name, r.gap, r.close, rest);
    var s4 := r.name + (r.gap + (r.close + rest));
    var s3 := "@" + s4;
    var s2 := r.id + s3;
    var s1 := r.blanks + s2;
    StartsWithin(r.id, s3, IsIdChar);
    if r.blanks != [] {
      StartsWithin(r.blanks, s2, IsSpace);
    } else {
      assert s1 == s2;
    }
    TakeExact(r.braces, s1, IsOpen);
    TakeExact(r.blanks, s2, IsSpace);
    TakeExact(r.id, s3, IsIdChar);
    TailComplete(r, rest, r.(name := "", gap := "", close := ""));
    hide Take, All, MatchTail, ValidRef;
    assert s3[1..] == s4;
    assert r.Text() + rest == r.braces + s1;
  }

  // ----- scanning a text -----

  /** A text is a sequence of plain characters and references. */
  datatype Piece = Plain(c: char) | Found(r: Ref)

  /** `finditer`: leftmost matches, one after the other. */
  function Scan(s: string): seq<Piece>
    decreases |s|
  {
    if s == [] then []
    else if MatchRef(s).Some? then
      var m := MatchRef(s).value;
      MatchSplits(s);
      [Found(m.r)] + Scan(m.rest)
    else [Plain(s[0])] + Scan(s[1..])
  }

  function Render(ps: seq<Piece>): string {
    if ps == [] then []
    else (if ps[0].Plain? then [ps[0].c] else ps[0].r.Text()) + Render(ps[1..])
  }

  lemma {:induction false} RenderScan(s: string)
    ensures Render(Scan(s)) == s
    decreases |s|
  {
    if s != [] {
      if MatchRef(s).Some? {
        MatchSplits(s);
        var m := MatchRef(s).value;
        hide MatchRef, ValidRef;
        RenderScan(m.rest);
        assert Scan(s)[1..] == Scan(m.rest);
      } else {
        hide MatchRef;
        RenderScan(s[1..]);
        assert Scan(s)[1..] == Scan(s[1..]);
      }
    }
  }

  /** Piece sequences that are the scan of their own text. */
  ghost predicate Canonical(ps: seq<Piece>) {
    ps == [] ||
    (Canonical(ps[1..]) &&
     match ps[0]
     case Found(r) => ValidRef(r) && (Render(ps[1..]) == [] || Render(ps[1..])[0] != '}')
     case Plain(c) => MatchRef([c] + Render(ps[1..])).None?)
  }

  lemma {:induction false} ScanIsCanonical(s: string)
    ensures Canonical(Scan(s))
    decreases |s|
  {
    if s != [] {
      if MatchRef(s).Some? {
        MatchSplits(s);
        var m := MatchRef(s).value;
        hide MatchRef, ValidRef;
        ScanIsCanonical(m.rest);
        RenderScan(m.rest);
        assert Scan(s)[1..] == Scan(m.rest);
      } else {
        hide MatchRef, ValidRef;
        ScanIsCanonical(s[1..]);
        RenderScan(s[1..]);
        assert Scan(s)[1..] == Scan(s[1..]);
        assert s == [s[0]] + s[1..];
      }
    }
  }

  lemma {:induction false} CanonicalIsScan(ps: seq<Piece>)
    requires Canonical(ps)
    ensures Scan(Render(ps)) == ps
  {
    if ps != [] {
      var rest := Render(ps[1..]);
      CanonicalIsScan(ps[1..]);
      var s := Render(ps);
      match ps[0] {
        case Found(r) =>
          MatchComplete(r, rest);
          RefOpens(r);
          hide MatchRef, ValidRef;
          assert s == r.Text() + rest;
        case Plain(c) =>
          hide MatchRef, ValidRef;
          assert s == [c] + rest && s[1..] == rest;
      }
      assert ps == [ps[0]] + ps[1..];
    }
  }

  // ----- rewriting ids -----

  /** `repl`: only the id changes. */
  function Renamed(p: Piece, rename: string -> string): Piece {
    if p.Plain? then p else Found(p.r.(id := rename(p.r.id)))
  }

  function RenameAll(ps: seq<Piece>, rename: string -> string): seq<Piece> {
    if ps == [] then [] else [Renamed(ps[0], rename)] + RenameAll(ps[1..], rename)
  }

  /** `VARIABLE_REF_PATTERN.sub(repl, text)` */
  function RewriteRefs(s: string, rename: string -> string): string {
    Render(RenameAll(Scan(s), rename))
  }

  /** Ids are renamed to ids. */
  ghost predicate KeepsIds(rename: string -> string) {
    forall id :: id != "" && All(id, IsIdChar) ==> rename(id) != "" && All(rename(id), IsIdChar)
  }

  /** The plain characters up to the next `{`. */
  function Lead(ps: seq<Piece>): string {
    if ps == [] || ps[0].Found? || ps[0].c == '{' then [] else [ps[0].c] + Lead(ps[1..])
  }

  /** `s` is over or goes on with a brace. */
  ghost predicate OpensOrEnds(s: string) {
    s == [] || s[0] == '{'
  }

  lemma {:induction false} LeadSplits(ps: seq<Piece>)
    requires Canonical(ps)
    ensures |Lead(ps)| <= |ps| && '{' !in Lead(ps)
    ensures Lead(ps) <= Render(ps) && OpensOrEnds(Render(ps)[|Lead(ps)|..])
  {
    hide MatchRef;
    if ps != [] && ps[0].Found? {
      RefOpens(ps[0].r);
      assert Render(ps)[0] == ps[0].r.Text()[0];
    } else if ps != [] && ps[0].c != '{' {
      LeadSplits(ps[1..]);
      assert Render(ps) == [ps[0].c] + Render(ps[1..]);
      assert Render(ps)[|Lead(ps)|..] == Render(ps[1..])[|Lead(ps[1..])|..];
    }
  }

  lemma {:induction false} RefOpens(r: Ref)
    requires ValidRef(r)
    ensures r.Text() != [] && r.Text()[0] == '{'
  {
    assert r.braces[0] in r.braces;
  }

  lemma {:induction false} RenameKeepsLead(ps: seq<Piece>, rename: string -> string)
    ensures Lead(RenameAll(ps, rename)) == Lead(ps)
    ensures |RenameAll(ps, rename)| == |ps|
  {
    if ps != [] {
      RenameKeepsLead(ps[1..], rename);
      assert RenameAll(ps, rename)[1..] == RenameAll(ps[1..], rename);
    }
  }

  /** A match of the body does not depend on anything from the next `{` on. */
  lemma {:induction false} BodyLocal(u: string, t: string, braces: string)
    requires OpensOrEnds(t)
    ensures MatchBody(u + t, braces).Some? <==> MatchBody(u, braces).Some?
  {
    hide Take, MatchTail;
    var blanks := Take(u, IsSpace);
    var id := Take(blanks.rest, IsIdChar);
    TakeLocal(u, t, IsSpace);
    TakeLocal(blanks.rest, t, IsIdChar);
    assert Take(Take(u + t, IsSpace).rest, IsIdChar) == Taken(id.head, id.rest + t);
    if id.rest != "" {
      TailLocal(id.rest[1..], t, Ref(braces, blanks.head, id.head, "", "", ""));
      assert (id.rest + t)[1..] == id.rest[1..] + t;
    } else {
      assert id.rest + t == t;
    }
  }

  lemma {:induction false} TailLocal(u: string, t: string, r: Ref)
    requires OpensOrEnds(t)
    ensures MatchTail(u + t, r).Some? <==> MatchTail(u, r).Some?
  {
    var name := Take(u, IsNameChar);
    var gap := Take(name.rest, IsSpace);
    TakeLocal(u, t, IsNameChar);
    TakeLocal(name.rest, t, IsSpace);
    TakeLocal(gap.rest, t, IsClose);
    hide Take;
  }

  lemma {:induction false} MatchLocal(u: string, t: string, t': string)
    requires u != [] && '{' !in u && OpensOrEnds(t) && OpensOrEnds(t')
    ensures MatchRef("{" + (u + t)).Some? <==> MatchRef("{" + (u + t')).Some?
  {
    assert u[0] in u;
    TakeExact("{", u + t, IsOpen);
    TakeExact("{", u + t', IsOpen);
    BodyLocal(u, t, "{");
    BodyLocal(u, t', "{");
    hide MatchBody, Take;
  }

  lemma {:induction false} BodyIgnoresBraces(s: string, braces: string, braces': string)
    ensures MatchBody(s, braces).Some? <==> MatchBody(s, braces').Some?
  {
    hide Take;
  }

  /** One brace more in front of a brace changes nothing. */
  lemma {:induction false} MatchThroughBraces(s: string)
    requires s != [] && s[0] == '{'
    ensures MatchRef("{" + s).Some? <==> MatchRef(s).Some?
  {
    var t := Take(s, IsOpen);
    assert ("{" + s)[1..] == s;
    assert Take("{" + s, IsOpen) == Taken("{" + t.head, t.rest);
    assert t.head != "";
    BodyIgnoresBraces(t.rest, t.head, "{" + t.head);
    hide MatchBody, Take;
  }

  /** Plain characters stay plain when the references around them are renamed. */
  lemma {:induction false} PlainStaysPlain(c: char, ps: seq<Piece>, rename: string -> string)
    requires Canonical([Plain(c)] + ps) && KeepsIds(rename) && Canonical(RenameAll(ps, rename))
    ensures MatchRef([c] + Render(RenameAll(ps, rename))).None?
  {
    assert ([Plain(c)] + ps)[1..] == ps;
    var qs := RenameAll(ps, rename);
    if c != '{' {
      NoBraceNoMatch(c, Render(qs));
    } else if ps == [] {
      assert qs == [];
    } else if Lead(ps) != [] {
      LeadDecides(ps, qs, rename);
    } else {
      BracePlain(ps);
      assert qs[0] == ps[0] && qs[1..] == RenameAll(ps[1..], rename);
      hide MatchRef;
      assert Render(qs) == [qs[0].c] + Render(qs[1..]);
      MatchThroughBraces(Render(qs));
    }
  }

  lemma {:induction false} LeadDecides(ps: seq<Piece>, qs: seq<Piece>, rename: string -> string)
    requires Canonical(ps) && qs == RenameAll(ps, rename) && Canonical(qs) && Lead(ps) != []
    ensures MatchRef("{" + Render(ps)).Some? <==> MatchRef("{" + Render(qs)).Some?
  {
    LeadSplits(ps);
    RenameKeepsLead(ps, rename);
    LeadSplits(qs);
    hide *;
    var u := Lead(ps);
    var t, t' := Render(ps)[|u|..], Render(qs)[|u|..];
    assert Render(ps) == u + t && Render(qs) == u + t';
    MatchLocal(u, t, t');
  }

  lemma {:induction false} NoBraceNoMatch(c: char, s: string)
    requires c != '{'
    ensures MatchRef([c] + s).None?
  {
    assert ([c] + s)[0] == c;
  }

  /** After a plain brace comes no reference, but plain text. */
  lemma {:induction false} BracePlain(ps: seq<Piece>)
    requires ps != [] && Canonical([Plain('{')] + ps) && Lead(ps) == []
    ensures ps[0] == Plain('{')
  {
    assert ([Plain('{')] + ps)[1..] == ps;
    if ps[0].Found? {
      MatchComplete(ps[0].r, Render(ps[1..]));
      RefOpens(ps[0].r);
      MatchThroughBraces(Render(ps));
    }
  }

  lemma {:induction false} RenameKeepsHead(ps: seq<Piece>, rename: string -> string)
    requires Canonical(ps)
    ensures Render(ps) == [] <==> Render(RenameAll(ps, rename)) == []
    ensures Render(ps) != [] ==> Render(RenameAll(ps, rename))[0] == Render(ps)[0]
  {
    hide MatchRef;
    if ps != [] && ps[0].Found? {
      RefOpens(ps[0].r);
      var q := ps[0].r.(id := rename(ps[0].r.id));
      assert q.Text()[0] == q.braces[0] == ps[0].r.Text()[0];
      assert RenameAll(ps, rename)[0] == Found(q);
    }
  }

  lemma {:induction false} RenameKeepsCanonical(ps: seq<Piece>, rename: string -> string)
    requires Canonical(ps) && KeepsIds(rename)
    ensures Canonical(RenameAll(ps, rename))
  {
    if ps != [] {
      RenameKeepsCanonical(ps[1..], rename);
      RenameKeepsHead(ps[1..], rename);
      var qs := RenameAll(ps, rename);
      assert qs[1..] == RenameAll(ps[1..], rename);
      match ps[0] {
        case Found(r) =>
          hide MatchRef;
          assert ValidRef(r.(id := rename(r.id)));
        case Plain(c) =>
          assert ps == [Plain(c)] + ps[1..];
          PlainStaysPlain(c, ps[1..], rename);
      }
    }
  }

  // ----- main result -----

  /**
   Rewriting commutes with scanning: the pieces found in the rewritten text are the pieces of the
   original text with the ids renamed, and everything else is unchanged.
   */
  lemma {:induction false} ScanRewritten(s: string, rename: string -> string)
    requires KeepsIds(rename)
    ensures Scan(RewriteRefs(s, rename)) == RenameAll(Scan(s), rename)
  {
    ScanIsCanonical(s);
    RenameKeepsCanonical(Scan(s), rename);
    CanonicalIsScan(RenameAll(Scan(s), rename));
  }

  /** Renaming nothing rewrites nothing. */
  lemma {:induction false} RewriteWithIdentity(s: string, rename: string -> string)
    requires forall id :: rename(id) == id
    ensures RewriteRefs(s, rename) == s
  {
    RenameByIdentity(Scan(s), rename);
    RenderScan(s);
  }

  lemma {:induction false} RenameByIdentity(ps: seq<Piece>, rename: string -> string)
    requires forall id :: rename(id) == id
    ensures RenameAll(ps, rename) == ps
  {
    if ps != [] {
      RenameByIdentity(ps[1..], rename);
      assert ps == [ps[0]] + ps[1..];
    }
  }
}
