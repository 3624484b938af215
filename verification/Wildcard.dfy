/**
 Match patterns and the escaping of user text in them: Elasticsearch wildcards
 (common/metadata_es_filter.py) and SQL LIKE (common/metadata_infinity_filter.py) differ only in
 their two metacharacters and in case folding.
 */
module Wildcard {
  import opened Text

  // ----- patterns -----

  /** `many` stands for any run of characters and `one` for any single one. */
  datatype Syntax = Syntax(many: char, one: char, foldCase: bool)

  predicate IsSyntax(x: Syntax) {
    x.many != x.one && x.many != '\\' && x.one != '\\'
  }

  const WILDCARD := Syntax('*', '?', true)
  const LIKE := Syntax('%', '_', false)

  function FoldChar(x: Syntax, c: char): char {
    if x.foldCase then LowerChar(c) else c
  }

  function Fold(x: Syntax, s: string): (r: string)
    ensures |r| == |s| && forall i :: 0 <= i < |s| ==> r[i] == FoldChar(x, s[i])
    ensures x.foldCase ==> r == Lower(s)
    ensures !x.foldCase ==> r == s
  {
    if x.foldCase then Lower(s) else s
  }

  predicate Same(x: Syntax, a: char, b: char) {
    FoldChar(x, a) == FoldChar(x, b)
  }

  /** A backslash takes the next character literally. The pattern matches the whole value. */
  predicate Wild(x: Syntax, pattern: string, s: string)
    decreases |pattern| + |s|
  {
    if pattern == [] then s == []
    else if pattern[0] == x.many then Wild(x, pattern[1..], s) || (s != [] && Wild(x, pattern, s[1..]))
    else if pattern[0] == x.one then s != [] && Wild(x, pattern[1..], s[1..])
    else if pattern[0] == '\\' && |pattern| > 1 then
      s != [] && Same(x, pattern[1], s[0]) && Wild(x, pattern[2..], s[1..])
    else s != [] && Same(x, pattern[0], s[0]) && Wild(x, pattern[1..], s[1..])
  }

  // ----- escaping -----

  /** `_escape_wildcard` and `_escape_likeWildcards`: three replacements, backslash first. */
  function Escape(x: Syntax, text: string): string {
    ReplaceChar(ReplaceChar(ReplaceChar(text, '\\', "\\\\"), x.many, ['\\', x.many]), x.one, ['\\', x.one])
  }

  function EscapeChar(x: Syntax, c: char): string {
    if c == '\\' || c == x.many || c == x.one then ['\\', c] else [c]
  }

  /** The escape as one pass over the characters. */
  function EscapeEach(x: Syntax, text: string): string {
    if text == [] then [] else EscapeChar(x, text[0]) + EscapeEach(x, text[1..])
  }

  lemma {:induction false} ReplaceOne(c: char, d: char, sub: string)
    ensures ReplaceChar([c], d, sub) == if c == d then sub else [c]
  {
    assert [c][1..] == [];
  }

  lemma {:induction false} ReplaceTwo(b: char, c: char, d: char, sub: string)
    requires b != d
    ensures ReplaceChar([b, c], d, sub) == [b] + if c == d then sub else [c]
  {
    assert [b, c] == [b] + [c];
    ReplaceCharAppend([b], [c], d, sub);
    ReplaceOne(b, d, sub);
    ReplaceOne(c, d, sub);
  }

  lemma {:induction false} EscapeOne(x: Syntax, c: char)
    requires IsSyntax(x)
    ensures Escape(x, [c]) == EscapeChar(x, c)
  {
    ReplaceOne(c, '\\', "\\\\");
    if c == '\\' {
      assert "\\\\" == ['\\', '\\'];
      ReplaceTwo('\\', '\\', x.many, ['\\', x.many]);
      ReplaceTwo('\\', '\\', x.one, ['\\', x.one]);
    } else {
      ReplaceOne(c, x.many, ['\\', x.many]);
      ReplaceOne(c, x.one, ['\\', x.one]);
      ReplaceTwo('\\', x.many, x.one, ['\\', x.one]);
    }
  }

  /** The three successive replacements are that one pass: none touches what an earlier one wrote. */
  lemma {:induction false} EscapeIsCharwise(x: Syntax, text: string)
    requires IsSyntax(x)
    ensures Escape(x, text) == EscapeEach(x, text)
  {
    if text != [] {
      var head, tail := [text[0]], text[1..];
      EscapeOne(x, text[0]);
      EscapeIsCharwise(x, tail);
      assert text == head + tail;
      ReplaceCharAppend(head, tail, '\\', "\\\\");
      var a, b := ReplaceChar(head, '\\', "\\\\"), ReplaceChar(tail, '\\', "\\\\");
      ReplaceCharAppend(a, b, x.many, ['\\', x.many]);
      ReplaceCharAppend(ReplaceChar(a, x.many, ['\\', x.many]), ReplaceChar(b, x.many, ['\\', x.many]), x.one,
          ['\\', x.one]);
    }
  }

  // ----- escaped text matches itself -----

  lemma {:induction false} WildLiteral(x: Syntax, text: string, rest: string, s: string)
    requires IsSyntax(x)
    ensures Wild(x, EscapeEach(x, text) + rest, s)
       <==> |text| <= |s| && Fold(x, s[..|text|]) == Fold(x, text) && Wild(x, rest, s[|text|..])
  {
    if text == [] {
      assert EscapeEach(x, text) + rest == rest && s[..0] == [] && s[0..] == s;
    } else {
      var c, tail := text[0], text[1..];
      var pattern := EscapeEach(x, text) + rest;
      assert pattern == EscapeChar(x, c) + (EscapeEach(x, tail) + rest);
      if s == [] {
        assert !Wild(x, pattern, s);
      } else {
        WildLiteral(x, tail, rest, s[1..]);
        assert pattern[|EscapeChar(x, c)|..] == EscapeEach(x, tail) + rest;
        assert Wild(x, pattern, s) <==> Same(x, c, s[0]) && Wild(x, EscapeEach(x, tail) + rest, s[1..]);
        if |text| <= |s| {
          FoldedHead(x, s[..|text|], text);
          assert s[..|text|][1..] == s[1..][..|tail|] && s[1..][|tail|..] == s[|text|..];
        }
      }
    }
  }

  lemma {:induction false} FoldedHead(x: Syntax, a: string, b: string)
    requires |a| == |b| > 0
    ensures Fold(x, a) == Fold(x, b) <==> Same(x, a[0], b[0]) && Fold(x, a[1..]) == Fold(x, b[1..])
  {
    assert Fold(x, a) == [FoldChar(x, a[0])] + Fold(x, a[1..]);
    assert Fold(x, b) == [FoldChar(x, b[0])] + Fold(x, b[1..]);
    if Fold(x, a) == Fold(x, b) {
      assert Fold(x, a)[1..] == Fold(x, b)[1..];
    }
  }

  lemma {:induction false} WildMany(x: Syntax, pattern: string, s: string)
    ensures Wild(x, [x.many] + pattern, s) <==> exists i :: 0 <= i <= |s| && Wild(x, pattern, s[i..])
  {
    assert ([x.many] + pattern)[1..] == pattern;
    assert s[0..] == s;
    if s != [] {
      WildMany(x, pattern, s[1..]);
      if i :| 0 <= i <= |s[1..]| && Wild(x, pattern, s[1..][i..]) {
        assert s[1..][i..] == s[i + 1..];
      }
      if i :| 0 < i <= |s| && Wild(x, pattern, s[i..]) {
        assert s[1..][i - 1..] == s[i..];
      }
    }
  }

  // ----- main results -----

  /** The escaped text between two run characters matches exactly the values that contain the text. */
  lemma {:induction false} ContainsPattern(x: Syntax, text: string, s: string)
    requires IsSyntax(x)
    ensures Wild(x, [x.many] + Escape(x, text) + [x.many], s) <==> Contains(Fold(x, s), Fold(x, text))
  {
    EscapeIsCharwise(x, text);
    var pattern := EscapeEach(x, text) + [x.many];
    assert [x.many] + Escape(x, text) + [x.many] == [x.many] + pattern;
    WildMany(x, pattern, s);
    ContainsIffOccurs(Fold(x, s), Fold(x, text));
    hide EscapeEach, Escape, Contains, Fold;
    forall i | 0 <= i <= |s| ensures Wild(x, pattern, s[i..]) <==> OccursAt(Fold(x, s), Fold(x, text), i) {
      ContainedAt(x, text, s, i);
    }
    if i :| OccursAt(Fold(x, s), Fold(x, text), i) {
      assert 0 <= i <= |s| && Wild(x, pattern, s[i..]);
    }
  }

  lemma {:induction false} ContainedAt(x: Syntax, text: string, s: string, i: nat)
    requires IsSyntax(x) && i <= |s|
    ensures Wild(x, EscapeEach(x, text) + [x.many], s[i..]) <==> OccursAt(Fold(x, s), Fold(x, text), i)
  {
    hide Wild, EscapeEach, Fold;
    var tail := s[i..];
    WildLiteral(x, text, [x.many], tail);
    if |text| <= |tail| {
      AnythingMatchesMany(x, tail[|text|..]);
      var piece := tail[..|text|];
      assert piece == s[i..i + |text|];
      assert Fold(x, piece) == Fold(x, s)[i..i + |text|];
    }
  }

  lemma {:induction false} AnythingMatchesMany(x: Syntax, s: string)
    ensures Wild(x, [x.many], s)
  {
    WildMany(x, "", s);
    assert [x.many] + "" == [x.many] && s[|s|..] == [];
  }

  /** The escaped text after a run character matches exactly the values that end with the text. */
  lemma {:induction false} EndsPattern(x: Syntax, text: string, s: string)
    requires IsSyntax(x)
    ensures Wild(x, [x.many] + Escape(x, text), s) <==> EndsWith(Fold(x, s), Fold(x, text))
  {
    EscapeIsCharwise(x, text);
    var pattern := EscapeEach(x, text);
    WildMany(x, pattern, s);
    hide EscapeEach, Escape, Fold;
    forall i | 0 <= i <= |s|
      ensures Wild(x, pattern, s[i..]) <==> i == |s| - |text| && Fold(x, s[i..]) == Fold(x, text)
    {
      WildLiteral(x, text, "", s[i..]);
      assert pattern + "" == pattern;
      if i + |text| == |s| {
        assert s[i..][..|text|] == s[i..];
      }
    }
    if |text| <= |s| {
      assert Fold(x, s[|s| - |text|..]) == Fold(x, s)[|s| - |text|..];
    }
  }

  /** The escaped text before a run character matches exactly the values that start with the text. */
  lemma {:induction false} StartsPattern(x: Syntax, text: string, s: string)
    requires IsSyntax(x)
    ensures Wild(x, Escape(x, text) + [x.many], s) <==> StartsWith(Fold(x, s), Fold(x, text))
  {
    EscapeIsCharwise(x, text);
    WildLiteral(x, text, [x.many], s);
    hide EscapeEach, Escape, Fold;
    if |text| <= |s| {
      AnythingMatchesMany(x, s[|text|..]);
      assert Fold(x, s[..|text|]) == Fold(x, s)[..|text|];
    }
  }
}
