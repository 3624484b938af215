/** The string operations the models share, after Python's `str`. */
module Text {

  /** `str.lower` on ASCII letters; other characters stay. */
  function LowerChar(c: char): char {
    if 'A' <= c <= 'Z' then (c as int - 'A' as int + 'a' as int) as char else c
  }

  function Lower(s: string): (r: string)
    ensures |r| == |s|
    ensures forall i :: 0 <= i < |s| ==> r[i] == LowerChar(s[i])
  {
    seq(|s|, i requires 0 <= i < |s| => LowerChar(s[i]))
  }

  /** `part in s`, also written `s.find(part) >= 0`. */
  predicate Contains(s: string, part: string) {
    part <= s || (s != [] && Contains(s[1..], part))
  }

  ghost predicate OccursAt(s: string, part: string, i: int) {
    0 <= i && i + |part| <= |s| && s[i..i + |part|] == part
  }

  lemma {:induction false} ContainsIffOccurs(s: string, part: string)
    ensures Contains(s, part) <==> exists i :: OccursAt(s, part, i)
  {
    if part <= s {
      assert OccursAt(s, part, 0);
    } else if s != [] {
      ContainsIffOccurs(s[1..], part);
      if i :| OccursAt(s[1..], part, i) {
        assert s[i + 1..i + 1 + |part|] == s[1..][i..i + |part|];
        assert OccursAt(s, part, i + 1);
      }
      if i :| OccursAt(s, part, i) {
        assert i != 0;
        assert s[i..i + |part|] == s[1..][i - 1..i - 1 + |part|];
        assert OccursAt(s[1..], part, i - 1);
      }
    }
  }

  predicate StartsWith(s: string, part: string) {
    part <= s
  }

  predicate EndsWith(s: string, part: string) {
    |part| <= |s| && s[|s| - |part|..] == part
  }

  // ----- stripping and splitting -----

  /** `s.strip(c)` for one character. */
  function Strip(s: string, c: char): string {
    StripEnd(StripStart(s, c), c)
  }

  function StripStart(s: string, c: char): string {
    if s != [] && s[0] == c then StripStart(s[1..], c) else s
  }

  function StripEnd(s: string, c: char): string {
    if s != [] && s[|s| - 1] == c then StripEnd(s[..|s| - 1], c) else s
  }

  /** Position of the first `c`, or the length of `s`. */
  function IndexOf(s: string, c: char): (n: nat)
    ensures n <= |s| && (n < |s| ==> s[n] == c) && c !in s[..n]
  {
    if s == [] || s[0] == c then 0
    else
      assert s[..IndexOf(s[1..], c) + 1] == [s[0]] + s[1..][..IndexOf(s[1..], c)];
      1 + IndexOf(s[1..], c)
  }

  /** `s.split(c)` */
  function Split(s: string, c: char): (parts: seq<string>)
    ensures parts != []
    decreases |s|
  {
    var n := IndexOf(s, c);
    if n == |s| then [s] else [s[..n]] + Split(s[n + 1..], c)
  }

  /** ASCII white space, as `str.isspace` and `\s` have it. */
  predicate IsSpace(c: char) {
    c == ' ' || '\t' <= c <= '\r' || 0x1C as char <= c <= 0x1F as char
  }

  /** `s.strip()` */
  function Trim(s: string): (r: string)
    ensures |r| <= |s|
  {
    if s != [] && IsSpace(s[0]) then Trim(s[1..])
    else if s != [] && IsSpace(s[|s| - 1]) then Trim(s[..|s| - 1])
    else s
  }

  // ----- replacing -----

  /** `s.replace(c, sub)` for a single character. */
  function ReplaceChar(s: string, c: char, sub: string): string {
    if s == [] then [] else (if s[0] == c then sub else [s[0]]) + ReplaceChar(s[1..], c, sub)
  }

  lemma {:induction false} ReplaceCharAppend(a: string, b: string, c: char, sub: string)
    ensures ReplaceChar(a + b, c, sub) == ReplaceChar(a, c, sub) + ReplaceChar(b, c, sub)
  {
    if a == [] {
      assert a + b == b;
    } else {
      assert (a + b)[1..] == a[1..] + b;
      ReplaceCharAppend(a[1..], b, c, sub);
    }
  }

  // ----- runs of a character class -----

  predicate All(s: string, kind: char -> bool) {
    forall c :: c in s ==> kind(c)
  }

  datatype Taken = Taken(head: string, rest: string)

  /** Splits off the longest prefix within a class. */
  function Take(s: string, kind: char -> bool): (t: Taken)
    ensures t.head + t.rest == s && All(t.head, kind) && (t.rest == [] || !kind(t.rest[0]))
  {
    if s != [] && kind(s[0]) then
      var t := Take(s[1..], kind);
      Prepended(s[0], t, s[1..], kind);
      assert s == [s[0]] + s[1..];
      Taken([s[0]] + t.head, t.rest)
    else Taken([], s)
  }

  lemma {:induction false} Prepended(c: char, t: Taken, s: string, kind: char -> bool)
    requires kind(c) && t.head + t.rest == s && All(t.head, kind)
    ensures [c] + t.head + t.rest == [c] + s && All([c] + t.head, kind)
  {
    assert [c] + t.head + t.rest == [c] + (t.head + t.rest);
  }

  lemma {:induction false} TakeExact(a: string, b: string, kind: char -> bool)
    requires All(a, kind) && (b == [] || !kind(b[0]))
    ensures Take(a + b, kind) == Taken(a, b)
  {
    if a == [] {
      assert a + b == b;
    } else {
      assert (a + b)[1..] == a[1..] + b;
      TakeExact(a[1..], b, kind);
      assert [a[0]] + a[1..] == a;
    }
  }

  /** The split does not see past a character outside the class. */
  lemma {:induction false} TakeLocal(u: string, t: string, kind: char -> bool)
    requires t == [] || !kind(t[0])
    ensures Take(u + t, kind) == Taken(Take(u, kind).head, Take(u, kind).rest + t)
  {
    if u == [] {
      assert u + t == t;
    } else {
      assert (u + t)[1..] == u[1..] + t;
      TakeLocal(u[1..], t, kind);
    }
  }

  // ----- what these operations do -----

  /** Only the letters A to Z have a lower case, each its own. */
  lemma {:induction false} LowerLetters(i: nat)
    requires i < 26
    ensures LowerChar("ABCDEFGHIJKLMNOPQRSTUVWXYZ"[i]) == "abcdefghijklmnopqrstuvwxyz"[i]
  {
  }

  lemma {:induction false} OthersStay(c: char)
    ensures c in "ABCDEFGHIJKLMNOPQRSTUVWXYZ" || LowerChar(c) == c
  {
    if 'A' <= c <= 'Z' {
      assert "ABCDEFGHIJKLMNOPQRSTUVWXYZ"[c as int - 'A' as int] == c;
    }
  }

  /** Blank, tab, the line ends and the separators of ASCII. */
  lemma {:induction false} SpacesAre(c: char)
    ensures IsSpace(c) <==> c in " \t\n\r" || c in "\U{0B}\U{0C}\U{1C}\U{1D}\U{1E}\U{1F}"
  {
    if '\t' <= c <= '\r' {
      assert "\t\n\U{0B}\U{0C}\r"[c as int - '\t' as int] == c;
    } else if 0x1C as char <= c <= 0x1F as char {
      assert "\U{1C}\U{1D}\U{1E}\U{1F}"[c as int - 0x1C] == c;
    }
  }

  /** Trimming takes white space off both ends, and all of it. */
  lemma {:induction false} TrimTakesSpace(s: string) returns (before: string, after: string)
    ensures s == before + (Trim(s) + after) && All(before, IsSpace) && All(after, IsSpace)
    ensures Trim(s) != "" ==> !IsSpace(Trim(s)[0]) && !IsSpace(Trim(s)[|Trim(s)| - 1])
    decreases |s|
  {
    if s != [] && IsSpace(s[0]) {
      before, after := TrimTakesSpace(s[1..]);
      assert s == [s[0]] + s[1..];
      assert [s[0]] + (before + (Trim(s) + after)) == ([s[0]] + before) + (Trim(s) + after);
      before := [s[0]] + before;
    } else if s != [] && IsSpace(s[|s| - 1]) {
      var init, last := s[..|s| - 1], s[|s| - 1];
      before, after := TrimTakesSpace(init);
      assert s == init + [last];
      assert before + (Trim(s) + after) + [last] == before + (Trim(s) + (after + [last]));
      after := after + [last];
    } else {
      before, after := "", "";
      assert "" + (s + "") == s;
    }
  }

  /** Stripping takes one character off both ends, and all of it. */
  lemma {:induction false} StripTakes(s: string, c: char) returns (before: string, after: string)
    ensures s == before + (Strip(s, c) + after) && (forall d :: d in before ==> d == c)
    ensures (forall d :: d in after ==> d == c)
    ensures Strip(s, c) != "" ==> Strip(s, c)[0] != c && Strip(s, c)[|Strip(s, c)| - 1] != c
  {
    before := StripStartTakes(s, c);
    var t := StripStart(s, c);
    after := StripEndTakes(t, c);
    assert Strip(s, c) != "" ==> Strip(s, c)[0] == t[0];
  }

  lemma {:induction false} StripStartTakes(s: string, c: char) returns (before: string)
    ensures s == before + StripStart(s, c) && (forall d :: d in before ==> d == c)
    ensures StripStart(s, c) != "" ==> StripStart(s, c)[0] != c
  {
    if s != [] && s[0] == c {
      var rest := StripStartTakes(s[1..], c);
      before := [c] + rest;
      assert s == [c] + s[1..];
    } else {
      before := "";
    }
  }

  lemma {:induction false} StripEndTakes(s: string, c: char) returns (after: string)
    ensures s == StripEnd(s, c) + after && (forall d :: d in after ==> d == c)
    ensures StripEnd(s, c) != "" ==> StripEnd(s, c)[|StripEnd(s, c)| - 1] != c
    decreases |s|
  {
    if s != [] && s[|s| - 1] == c {
      var init := StripEndTakes(s[..|s| - 1], c);
      after := init + [c];
      assert s == s[..|s| - 1] + [c];
    } else {
      after := "";
    }
  }

  function Joined(parts: seq<string>, c: char): string {
    if parts == [] then "" else if |parts| == 1 then parts[0] else parts[0] + [c] + Joined(parts[1..], c)
  }

  /** The parts, joined again, are the text, and none of them has the separator. */
  lemma {:induction false} SplitJoins(s: string, c: char)
    ensures Joined(Split(s, c), c) == s && forall part :: part in Split(s, c) ==> c !in part
    decreases |s|
  {
    var n := IndexOf(s, c);
    if n < |s| {
      SplitJoins(s[n + 1..], c);
      assert Split(s, c)[1..] == Split(s[n + 1..], c);
      assert s == s[..n] + [c] + s[n + 1..];
    } else {
      assert s[..n] == s;
    }
  }
}
