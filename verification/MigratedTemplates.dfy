/**
 A template text before and after the migration: when it resolves, against the renamed components,
 to what it gave before.
 */
module MigratedTemplates {
  import opened Wrappers
  import opened Json
  import opened Text
  import opened RefScan
  import opened RuntimeRefs
  import opened Resolution
  import opened Variables
  import opened Templates
  import Migration
  import MigrationGraph

  // ----- the migration's renaming -----

  lemma {:induction false} RenameKeepsRuntimeId(id: string)
    requires id != "" && All(id, IsIdChar)
    ensures IsRuntimeId(Migration.RenameId(id)) <==> IsRuntimeId(id)
  {
    FixedPrefixes();
    Migration.RenameCases(id);
    hide IsRuntimeId, Migration.RenameId;
    if "Splitter:" <= id {
      PrefixChange("Splitter:", "TokenChunker:", id[9..]);
      assert id == "Splitter:" + id[9..];
    } else if "HierarchicalMerger:" <= id {
      PrefixChange("HierarchicalMerger:", "TitleChunker:", id[19..]);
      assert id == "HierarchicalMerger:" + id[19..];
    } else if "PDFGenerator:" <= id {
      PrefixChange("PDFGenerator:", "DocGenerator:", id[13..]);
      assert id == "PDFGenerator:" + id[13..];
    }
  }

  lemma {:induction false} FixedPrefixes()
    ensures IsRuntimeId("Splitter:") && IsRuntimeId("HierarchicalMerger:") && IsRuntimeId("PDFGenerator:")
    ensures IsRuntimeId("TokenChunker:") && IsRuntimeId("TitleChunker:") && IsRuntimeId("DocGenerator:")
  {
  }

  lemma {:induction false} PrefixChange(a: string, b: string, rest: string)
    requires IsRuntimeId(a) && IsRuntimeId(b)
    ensures IsRuntimeId(a + rest) <==> IsRuntimeId(b + rest)
  {
    assert forall c :: c in a + rest <==> c in a || c in rest;
    assert forall c :: c in b + rest <==> c in b || c in rest;
    if !All(rest, IsRuntimeIdChar) {
      var c :| c in rest && !IsRuntimeIdChar(c);
      assert c in a + rest && c in b + rest;
    }
  }

  lemma {:induction false} MapIdKeepsRuntimeIds(ids: set<string>)
    ensures KeepsRuntimeIds(id => Migration.MapId(ids, id))
  {
    MigrationGraph.MapIdKeepsIds(ids);
    forall id | id != "" && All(id, IsIdChar)
      ensures IsRuntimeId(Migration.MapId(ids, id)) <==> IsRuntimeId(id)
    {
      RenameKeepsRuntimeId(id);
    }
  }

  /** A changed id differs from the old one in its first character. */
  lemma {:induction false} RenamedDiffers(ids: set<string>, id: string)
    requires Migration.MapId(ids, id) != id
    ensures id != "" && Migration.MapId(ids, id) != "" && Migration.MapId(ids, id)[0] != id[0]
  {
    Migration.RenameCases(id);
    hide Migration.RenameId;
  }

  // ----- the renamed store -----

  /** The store after the migration: each component's outputs under its new id. */
  ghost function RenamedStore(ids: set<string>, store: Store): Store
    requires store.outputs.Keys <= ids && MigrationGraph.Injective(ids)
  {
    store.(outputs := map id | id in store.outputs :: Migration.MapId(ids, id) := store.outputs[id])
  }

  /** A reference to no component, whose id is the new id of one. */
  ghost predicate IsCaptured(ids: set<string>, store: Store, id: string) {
    id !in ids && exists c :: c in store.outputs && Migration.RenameId(c) == id
  }

  ghost predicate Captured(ids: set<string>, store: Store, t: Token) {
    t.Hit? && t.core.Variable? && IsCaptured(ids, store, t.core.id)
  }

  lemma {:induction false} RenamedKeys(ids: set<string>, store: Store, id: string)
    requires store.outputs.Keys <= ids && MigrationGraph.Injective(ids)
    ensures id in store.outputs ==> !IsCaptured(ids, store, id)
    ensures Migration.MapId(ids, id) in RenamedStore(ids, store).outputs
       <==> id in store.outputs || IsCaptured(ids, store, id)
    ensures id in store.outputs ==> RenamedStore(ids, store).outputs[Migration.MapId(ids, id)] == store.outputs[id]
  {
    hide Migration.RenameId;
    assert forall c :: c in store.outputs ==> c in ids;
  }

  /** A failure as it is reported after the migration: with the new id. */
  function RenamedFailure(ids: set<string>, e: Failure): Failure {
    if e.NoSuchComponent? && e.reference.Output? then
      NoSuchComponent(e.reference.(component := Migration.MapId(ids, e.reference.component)))
    else e
  }

  function RenamedOutcome<T>(ids: set<string>, r: Result<T, Failure>): Result<T, Failure> {
    match r case Ok(v) => Ok(v) case Err(e) => Err(RenamedFailure(ids, e))
  }

  lemma {:induction false} ReadRenamed(host: Host, ids: set<string>, store: Store, id: string, name: string)
    requires store.outputs.Keys <= ids && MigrationGraph.Injective(ids) && IsKey(id, name)
    requires IsKey(Migration.MapId(ids, id), name)
    ensures var before, after := GetVariable(host, store, id + "@" + name), GetVariable(host, RenamedStore(ids, store),
        Migration.MapId(ids, id) + "@" + name);
            if IsCaptured(ids, store, id) then
              before == Err(NoSuchComponent(Variables.Parse(id + "@" + name))) && after.Ok?
            else after == RenamedOutcome(ids, before)
  {
    RenamedKeys(ids, store, id);
    KeyParses(id, name);
    var new' := Migration.MapId(ids, id);
    var r, q := Variables.Parse(id + "@" + name), Variables.Parse(new' + "@" + name);
    assert q == r.(component := new');
    assert Keys(q) == Keys(r);
    hide Variables.Parse, Keys, ReadOutput, IsCaptured, RenamedStore, Migration.MapId;
  }

  lemma {:induction false} FillRenamed(host: Host, dumps: Value -> string, ids: set<string>, store: Store, t: Token)
    requires store.outputs.Keys <= ids && MigrationGraph.Injective(ids) && ValidToken(t)
    ensures var before, after := Fill(host, dumps, store, t), Fill(host, dumps, RenamedStore(ids, store),
        RenamedToken(t, id => Migration.MapId(ids, id)));
            if Captured(ids, store, t) then before == Err(NoSuchComponent(Variables.Parse(KeyOf(t.core)))) && after.Ok?
            else after == RenamedOutcome(ids, before)
  {
    if t.Hit? && t.core.Variable? {
      var id, name := t.core.id, t.core.name;
      MapIdKeepsRuntimeIds(ids);
      assert All(id, IsIdChar) by {
        assert forall c :: c in id ==> IsRuntimeIdChar(c);
      }
      ReadRenamed(host, ids, store, id, name);
      hide GetVariable, IsCaptured, RenamedStore;
    } else if t.Hit? {
      GlobalParses(t.core.key);
    }
  }

  // ----- failures -----

  /** The error of the first token that cannot be filled in. */
  function FirstFailure(host: Host, store: Store, ts: seq<Token>): Option<Failure> {
    if ts == [] then None
    else match Failing(host, store, ts[0])
         case Some(e) => Some(e)
         case None => FirstFailure(host, store, ts[1..])
  }

  function Failing(host: Host, store: Store, t: Token): Option<Failure> {
    if t.Char? then None
    else match GetVariable(host, store, KeyOf(t.core)) case Ok(_) => None case Err(e) => Some(e)
  }

  /** The same as reported after the migration, but for the references that the migration captures. */
  ghost function FirstLasting(host: Host, ids: set<string>, store: Store, ts: seq<Token>): Option<Failure> {
    if ts == [] then None
    else if Lasting(host, ids, store, ts[0]).Some? then Lasting(host, ids, store, ts[0])
    else FirstLasting(host, ids, store, ts[1..])
  }

  ghost function Lasting(host: Host, ids: set<string>, store: Store, t: Token): Option<Failure> {
    if Captured(ids, store, t) then None
    else match Failing(host, store, t) case None => None case Some(e) => Some(RenamedFailure(ids, e))
  }

  lemma {:induction false} FillFails(host: Host, dumps: Value -> string, store: Store, ts: seq<Token>)
    ensures FirstFailure(host, store, ts)
         == match FillAll(host, dumps, store, ts) case Ok(_) => None case Err(e) => Some(e)
  {
    hide GetVariable;
    if ts != [] {
      FillFails(host, dumps, store, ts[1..]);
    }
  }

  lemma {:induction false} FailingRenamed(host: Host, ids: set<string>, store: Store, t: Token)
    requires store.outputs.Keys <= ids && MigrationGraph.Injective(ids) && ValidToken(t)
    ensures Failing(host, RenamedStore(ids, store), RenamedToken(t, id => Migration.MapId(ids, id)))
         == Lasting(host, ids, store, t)
  {
    FillRenamed(host, v => "", ids, store, t);
    hide GetVariable, Captured, RenamedStore, ValidToken, Migration.MapId;
  }

  /** The failures that last are the failures after the migration. */
  lemma {:induction false} LastingIsAfter(host: Host, ids: set<string>, store: Store, ts: seq<Token>)
    requires store.outputs.Keys <= ids && MigrationGraph.Injective(ids) && forall t :: t in ts ==> ValidToken(t)
    ensures FirstFailure(host, RenamedStore(ids, store), RenameTokens(ts, id => Migration.MapId(ids, id)))
         == FirstLasting(host, ids, store, ts)
  {
    hide Failing, Lasting, RenamedStore, ValidToken, RenamedToken, MigrationGraph.Injective;
    if ts != [] {
      FailingRenamed(host, ids, store, ts[0]);
      LastingIsAfter(host, ids, store, ts[1..]);
      var rename := id => Migration.MapId(ids, id);
      assert RenameTokens(ts, rename)[1..] == RenameTokens(ts[1..], rename);
    }
  }

  /** As long as nothing fails before the migration, the renamed tokens fill in to the same text. */
  lemma {:induction false} FillAllRenamed(
      host: Host, dumps: Value -> string, ids: set<string>, store: Store, ts: seq<Token>)
    requires store.outputs.Keys <= ids && MigrationGraph.Injective(ids) && forall t :: t in ts ==> ValidToken(t)
    requires FillAll(host, dumps, store, ts).Ok?
    ensures FillAll(host, dumps, RenamedStore(ids, store), RenameTokens(ts, id => Migration.MapId(ids, id)))
         == FillAll(host, dumps, store, ts)
  {
    hide Fill, Captured, RenamedStore, ValidToken, RenamedToken, MigrationGraph.Injective;
    if ts != [] {
      FillRenamed(host, dumps, ids, store, ts[0]);
      FillAllRenamed(host, dumps, ids, store, ts[1..]);
      var rename := id => Migration.MapId(ids, id);
      assert RenameTokens(ts, rename)[1..] == RenameTokens(ts[1..], rename);
    }
  }

  // ----- the references alone -----

  function HitsOf(ts: seq<Token>): seq<Token> {
    if ts == [] then [] else (if ts[0].Hit? then [ts[0]] else []) + HitsOf(ts[1..])
  }

  lemma {:induction false} HitsAppend(a: seq<Token>, b: seq<Token>)
    ensures HitsOf(a + b) == HitsOf(a) + HitsOf(b)
  {
    if a == [] {
      assert a + b == b;
    } else {
      assert (a + b)[1..] == a[1..] + b && (a + b)[0] == a[0];
      HitsAppend(a[1..], b);
      FourParts(if a[0].Hit? then [a[0]] else [], HitsOf(a[1..]), [], HitsOf(b));
    }
  }

  lemma {:induction false} HitsOfSkip(ts: seq<Token>, c: char)
    ensures HitsOf(Skip(ts, c)) == HitsOf(ts)
  {
    if ts != [] && ts[0] == Char(c) {
      HitsOfSkip(ts[1..], c);
    }
  }

  lemma {:induction false} HitsOfChars(s: string)
    ensures HitsOf(Chars(s)) == []
  {
    if s != [] {
      HitsOfChars(s[1..]);
      assert Chars(s)[1..] == Chars(s[1..]);
    }
  }

  lemma {:induction false} HitsOfScan(ts: seq<Token>)
    ensures HitsOf(TokenScan(ts)) == HitsOf(ts)
    decreases |ts|
  {
    if ts != [] {
      TokensShrink(ts);
      match MatchTokens(ts) {
        case Some(m) =>
          var at := Skip(Skip(ts, '{'), ' ');
          HitsOfSkip(ts, '{');
          HitsOfSkip(Skip(ts, '{'), ' ');
          HitsOfSkip(at[1..], ' ');
          HitsOfSkip(Skip(at[1..], ' '), '}');
          hide Skip;
          HitsOfScan(m.rest);
          assert TokenScan(ts)[1..] == TokenScan(m.rest);
          assert HitsOf(at) == [at[0]] + HitsOf(at[1..]);
        case None =>
          hide MatchTokens;
          HitsOfScan(ts[1..]);
          assert TokenScan(ts)[1..] == TokenScan(ts[1..]);
      }
    }
  }

  lemma {:induction false} FailureOfHits(host: Host, store: Store, ts: seq<Token>)
    ensures FirstFailure(host, store, HitsOf(ts)) == FirstFailure(host, store, ts)
  {
    hide GetVariable;
    if ts != [] {
      FailureOfHits(host, store, ts[1..]);
      assert ts[0].Hit? ==> HitsOf(ts)[1..] == HitsOf(ts[1..]);
      assert !ts[0].Hit? ==> HitsOf(ts) == HitsOf(ts[1..]);
    }
  }

  lemma {:induction false} RefHitsRenamed(r: Ref, rename: string -> string)
    requires ValidRef(r) && ValidRef(r.(id := rename(r.id))) && KeepsRuntimeIds(rename)
    ensures HitsOf(RefTokens(r.(id := rename(r.id)))) == HitsOf(RenameTokens(RefTokens(r), rename))
  {
    var q := r.(id := rename(r.id));
    if Compatible(r) {
      RefTokensRenamed(r, rename);
    } else {
      assert !Compatible(q);
      RenameChars(r.Text(), rename);
      HitsOfChars(r.Text());
      HitsOfChars(q.Text());
    }
  }

  /** Whether or not it is faithful, rewriting renames the references that the runtime finds, and finds no others. */
  lemma {:induction false} HitsRenamed(ps: seq<Piece>, rename: string -> string)
    requires Canonical(ps) && Canonical(RenameAll(ps, rename)) && KeepsRuntimeIds(rename)
    ensures HitsOf(Cores(Render(RenameAll(ps, rename)))) == HitsOf(RenameTokens(Cores(Render(ps)), rename))
    decreases |ps|
  {
    if ps != [] {
      if ps[0].Plain? {
        PlainStep(ps, rename);
        hide Cores, Canonical, Render, Head, Reads, KeepsRuntimeIds, RenameTokens, HitsOf, RenameAll;
        var rest := ps[Reads(ps)..];
        HitsRenamed(rest, rename);
        RenameAppend(Head(ps), Cores(Render(rest)), rename);
        HitsAppend(Head(ps), Cores(Render(RenameAll(rest, rename))));
        HitsAppend(Head(ps), RenameTokens(Cores(Render(rest)), rename));
      } else {
        FoundStep(ps, rename);
        var r, rest := ps[0].r, ps[1..];
        var q := r.(id := rename(r.id));
        hide Cores, Canonical, Render, RefTokens, KeepsRuntimeIds, RenameTokens, HitsOf, RenameAll, ValidRef;
        HitsRenamed(rest, rename);
        RefHitsRenamed(r, rename);
        RenameAppend(RefTokens(r), Cores(Render(rest)), rename);
        HitsAppend(RefTokens(q), Cores(Render(RenameAll(rest, rename))));
        HitsAppend(RenameTokens(RefTokens(r), rename), RenameTokens(Cores(Render(rest)), rename));
      }
    }
  }

  lemma {:induction false} ScanHitsRenamed(s: string, rename: string -> string)
    requires KeepsRuntimeIds(rename)
    ensures HitsOf(RuntimeScan(RewriteRefs(s, rename))) == HitsOf(RenameTokens(RuntimeScan(s), rename))
  {
    var t := RewriteRefs(s, rename);
    ScanIsCanonical(s);
    RenderScan(s);
    RenameKeepsCanonical(Scan(s), rename);
    HitsRenamed(Scan(s), rename);
    ScanOnTokens(s);
    ScanOnTokens(t);
    ScanRenamed(Cores(s), rename);
    HitsOfScan(Cores(t));
    HitsOfScan(RenameTokens(Cores(s), rename));
  }

  // ----- the first unfaithful reference -----

  /** A character that is no brace and no blank: no match of the runtime pattern goes past it. */
  predicate Separates(t: Token) {
    t.Char? && t.c != '{' && t.c != '}' && t.c != ' '
  }

  lemma {:induction false} SkipSplits(x: seq<Token>, t: Token, y: seq<Token>, c: char)
    requires t != Char(c)
    ensures Skip(x + [t] + y, c) == Skip(x, c) + [t] + y
  {
    if x != [] && x[0] == Char(c) {
      assert (x + [t] + y)[1..] == x[1..] + [t] + y;
      SkipSplits(x[1..], t, y, c);
    } else if x == [] {
      assert [] + [t] + y == [t] + y;
    }
  }

  lemma {:induction false} MatchSplitsAt(x: seq<Token>, t: Token, y: seq<Token>)
    requires Separates(t)
    ensures MatchTokens(x + [t] + y) ==
              match MatchTokens(x) case None => None case Some(m) => Some(TokenMatch(m.core, m.rest + [t] + y))
  {
    SkipSplits(x, t, y, '{');
    SkipSplits(Skip(x, '{'), t, y, ' ');
    var at := Skip(Skip(x, '{'), ' ');
    if at != [] {
      assert (at + [t] + y)[1..] == at[1..] + [t] + y;
      SkipSplits(at[1..], t, y, ' ');
      SkipSplits(Skip(at[1..], ' '), t, y, '}');
    }
    hide Skip;
  }

  lemma {:induction false} ScanSplits(x: seq<Token>, t: Token, y: seq<Token>)
    requires Separates(t)
    ensures TokenScan(x + [t] + y) == TokenScan(x) + [t] + TokenScan(y)
    decreases |x|
  {
    var ts := x + [t] + y;
    MatchSplitsAt(x, t, y);
    if x == [] {
      assert ts == [t] + y && ts[1..] == y;
      assert MatchTokens(x).None?;
    } else {
      TokensShrink(x);
      hide MatchTokens;
      match MatchTokens(x) {
        case Some(m) =>
          ScanSplits(m.rest, t, y);
        case None =>
          assert ts[1..] == x[1..] + [t] + y;
          ScanSplits(x[1..], t, y);
      }
    }
  }

  /** The two token sequences agree, up to renaming, until a character that differs. */
  ghost predicate DifferAfter(
      ts: seq<Token>, us: seq<Token>, x: seq<Token>, c: Token, d: Token, y: seq<Token>, z: seq<Token>,
      rename: string -> string) {
    ts == x + [c] + y && us == RenameTokens(x, rename) + [d] + z && Separates(c) && Separates(d) && c != d
  }

  lemma {:induction false} DifferLater(
      h: seq<Token>, ts: seq<Token>, us: seq<Token>, x: seq<Token>, c: Token, d: Token, y: seq<Token>, z: seq<Token>,
      rename: string -> string)
    requires DifferAfter(ts, us, x, c, d, y, z, rename)
    ensures DifferAfter(h + ts, RenameTokens(h, rename) + us, h + x, c, d, y, z, rename)
  {
    RenameAppend(h, x, rename);
    hide RenameTokens;
    assert h + (x + [c] + y) == h + x + [c] + y;
    assert RenameTokens(h, rename) + (RenameTokens(x, rename) + [d] + z)
        == RenameTokens(h, rename) + RenameTokens(x, rename) + [d] + z;
  }

  /** Ids that change at all change in their first character. */
  ghost predicate ChangesFirst(rename: string -> string) {
    forall id :: rename(id) != id ==> id != "" && rename(id) != "" && rename(id)[0] != id[0]
  }

  lemma {:induction false} HiddenDiffers(r: Ref, rename: string -> string, ts: seq<Token>, us: seq<Token>)
      returns (x: seq<Token>, c: Token, d: Token, y: seq<Token>, z: seq<Token>)
    requires ValidRef(r) && ValidRef(r.(id := rename(r.id))) && KeepsRuntimeIds(rename) && ChangesFirst(rename)
    requires !Faithful(Found(r), rename)
    ensures DifferAfter(RefTokens(r) + ts, RefTokens(r.(id := rename(r.id))) + us, x, c, d, y, z, rename)
  {
    var q := r.(id := rename(r.id));
    var lead := r.braces + r.blanks;
    assert rename(r.id) != r.id && !Compatible(r) && !Compatible(q);
    RenameChars(lead, rename);
    hide Chars, All, ValidRef, Compatible, KeepsRuntimeIds, RefTokens;
    x, c, d := Chars(lead), Char(r.id[0]), Char(q.id[0]);
    y, z := HiddenRest(r, ts), HiddenRest(q, us);
    HiddenParts(r, ts);
    HiddenParts(q, us);
  }

  /** What follows the first character of the id. */
  function HiddenRest(r: Ref, ts: seq<Token>): seq<Token>
    requires r.id != ""
  {
    Chars(r.id[1..] + ("@" + (r.name + (r.gap + r.close)))) + ts
  }

  lemma {:induction false} HiddenParts(r: Ref, ts: seq<Token>)
    requires ValidRef(r) && !Compatible(r)
    ensures RefTokens(r) + ts == Chars(r.braces + r.blanks) + [Char(r.id[0])] + HiddenRest(r, ts)
    ensures Separates(Char(r.id[0]))
  {
    assert r.id[0] in r.id;
    TextFrom(r, r.id[0], r.id[1..]);
    hide Chars, All, Compatible;
  }

  lemma {:induction false} TextFrom(r: Ref, first: char, more: string)
    requires r.id == [first] + more
    ensures Chars(r.Text())
         == Chars(r.braces + r.blanks) + [Char(first)] + Chars(more + ("@" + (r.name + (r.gap + r.close))))
  {
    var lead, tail := r.braces + r.blanks, "@" + (r.name + (r.gap + r.close));
    assert r.Text() == lead + ([first] + (more + tail));
    CharsAppend(lead, [first] + (more + tail));
    assert ([first] + (more + tail))[1..] == more + tail;
  }

  lemma {:induction false} FirstUnfaithful(ps: seq<Piece>, rename: string -> string)
      returns (x: seq<Token>, c: Token, d: Token, y: seq<Token>, z: seq<Token>)
    requires Canonical(ps) && Canonical(RenameAll(ps, rename)) && KeepsRuntimeIds(rename) && ChangesFirst(rename)
    requires !AllFaithful(ps, rename)
    ensures DifferAfter(Cores(Render(ps)), Cores(Render(RenameAll(ps, rename))), x, c, d, y, z, rename)
    decreases |ps|
  {
    hide Canonical, Render, Cores, Head, Reads, RefTokens, RenameTokens, KeepsRuntimeIds, ChangesFirst, DifferAfter,
         RenameAll;
    if ps[0].Plain? {
      PlainStep(ps, rename);
      PlainPrefix(ps);
      var rest := ps[Reads(ps)..];
      UnfaithfulLater(ps, Reads(ps), rename);
      x, c, d, y, z := FirstUnfaithful(rest, rename);
      DifferLater(Head(ps), Cores(Render(rest)), Cores(Render(RenameAll(rest, rename))), x, c, d, y, z, rename);
      x := Head(ps) + x;
    } else {
      FoundStep(ps, rename);
      var r, rest := ps[0].r, ps[1..];
      var ts, us := Cores(Render(rest)), Cores(Render(RenameAll(rest, rename)));
      if Faithful(ps[0], rename) {
        UnfaithfulLater(ps, 1, rename);
        RefTokensRenamed(r, rename);
        x, c, d, y, z := FirstUnfaithful(rest, rename);
        DifferLater(RefTokens(r), ts, us, x, c, d, y, z, rename);
        x := RefTokens(r) + x;
      } else {
        x, c, d, y, z := HiddenDiffers(r, rename, ts, us);
      }
    }
  }

  lemma {:induction false} UnfaithfulLater(ps: seq<Piece>, n: nat, rename: string -> string)
    requires n <= |ps| && (forall i :: 0 <= i < n ==> Faithful(ps[i], rename)) && !AllFaithful(ps, rename)
    ensures !AllFaithful(ps[n..], rename)
  {
    if AllFaithful(ps[n..], rename) {
      FaithfulBoth(ps, n, rename);
    }
  }

  // ----- outcomes -----

  lemma {:induction false} FillAllAppend(host: Host, dumps: Value -> string, store: Store, a: seq<Token>, b: seq<Token>)
    ensures FillAll(host, dumps, store, a + b) ==
              match FillAll(host, dumps, store, a)
              case Err(e) => Err(e)
              case Ok(u) => After(u, FillAll(host, dumps, store, b))
  {
    hide Fill;
    if a == [] {
      assert a + b == b;
      AfterNothing(FillAll(host, dumps, store, b));
    } else {
      assert (a + b)[1..] == a[1..] + b;
      FillAllAppend(host, dumps, store, a[1..], b);
      var first, rest := Fill(host, dumps, store, a[0]), FillAll(host, dumps, store, a[1..]);
      if first.Ok? && rest.Ok? {
        AfterBoth(first.value, rest.value, FillAll(host, dumps, store, b));
      }
    }
  }

  /** Up to a separating character the outcome is the text so far, that character, and the rest. */
  lemma {:induction false} FillThrough(
      host: Host, dumps: Value -> string, store: Store, x: seq<Token>, t: Token, y: seq<Token>)
    requires Separates(t)
    ensures var r, u := FillAll(host, dumps, store, x + [t] + y), FillAll(host, dumps, store, x);
            && (r.Ok? ==> u.Ok? && u.value + [t.c] <= r.value)
            && (u.Err? ==> r == u)
  {
    FillAllAppend(host, dumps, store, x + [t], y);
    FillAllAppend(host, dumps, store, x, [t]);
    assert [t][1..] == [];
    assert FillAll(host, dumps, store, [t]) == Ok([t.c] + "");
    assert [t.c] + "" == [t.c];
    hide FillAll;
    var u, v := FillAll(host, dumps, store, x), FillAll(host, dumps, store, y);
    if u.Ok? && v.Ok? {
      assert u.value + [t.c] <= u.value + [t.c] + v.value;
    }
  }

  lemma {:induction false} DifferentTexts(u: string, c: char, d: char, a: string, b: string)
    requires u + [c] <= a && u + [d] <= b && c != d
    ensures a != b
  {
    assert a[|u|] == (u + [c])[|u|] && b[|u|] == (u + [d])[|u|];
  }

  /** An unfaithful reference shows in the outcome, unless there is none. */
  lemma {:induction false} UnfaithfulShows(
      host: Host, dumps: Value -> string, ids: set<string>, store: Store, text: string)
    requires store.outputs.Keys <= ids && MigrationGraph.Injective(ids) && text !in ids
    requires !AllFaithful(Scan(text), id => Migration.MapId(ids, id)) && Resolve(host, dumps, store, text).Ok?
    ensures Resolve(host, dumps, RenamedStore(ids, store), Migration.RewriteText(ids, text))
         != Resolve(host, dumps, store, text)
  {
    var rename := id => Migration.MapId(ids, id);
    MapIdKeepsRuntimeIds(ids);
    forall id | rename(id) != id ensures id != "" && rename(id) != "" && rename(id)[0] != id[0] {
      RenamedDiffers(ids, id);
    }
    ScanIsCanonical(text);
    RenderScan(text);
    RenameKeepsCanonical(Scan(text), rename);
    var x, c, d, y, z := FirstUnfaithful(Scan(text), rename);
    ScanOnTokens(text);
    ScanOnTokens(RewriteRefs(text, rename));
    ScanSplits(x, c, y);
    ScanSplits(RenameTokens(x, rename), d, z);
    ScanRenamed(x, rename);
    ScanIsValid(text);
    hide RuntimeScan, Scan, TokenScan, Canonical, RenameTokens, FillAll, AllFaithful, KeepsRuntimeIds, RenamedStore,
         ValidToken, Migration.MapId, Cores, MigrationGraph.Injective;
    DifferentOutcomes(host, dumps, ids, store, TokenScan(x), c, d, TokenScan(y), TokenScan(z));
  }

  lemma {:induction false} DifferentOutcomes(host: Host, dumps: Value -> string, ids: set<string>, store: Store,
                                             x: seq<Token>, c: Token, d: Token, y: seq<Token>, z: seq<Token>)
    requires store.outputs.Keys <= ids && MigrationGraph.Injective(ids)
    requires (forall t :: t in x + [c] + y ==> ValidToken(t))
    requires Separates(c) && Separates(d) && c != d && FillAll(host, dumps, store, x + [c] + y).Ok?
    ensures FillAll(host, dumps, RenamedStore(ids, store), RenameTokens(x, id => Migration.MapId(ids, id)) + [d] + z)
         != FillAll(host, dumps, store, x + [c] + y)
  {
    hide FillAll, RenamedStore, ValidToken, RenameTokens, Migration.MapId, MigrationGraph.Injective;
    var new' := RenamedStore(ids, store);
    var renamed := RenameTokens(x, id => Migration.MapId(ids, id));
    forall t | t in x ensures ValidToken(t) {
      assert t in x + [c] + y;
    }
    FillThrough(host, dumps, store, x, c, y);
    FillAllRenamed(host, dumps, ids, store, x);
    FillThrough(host, dumps, new', renamed, d, z);
    var a, b := FillAll(host, dumps, store, x + [c] + y), FillAll(host, dumps, new', renamed + [d] + z);
    if b.Ok? {
      DifferentTexts(FillAll(host, dumps, store, x).value, c.c, d.c, a.value, b.value);
    }
  }

  /** What fails after the migration is what failed before and was not captured. */
  lemma {:induction false} FailuresAfter(
      host: Host, dumps: Value -> string, ids: set<string>, store: Store, text: string)
    requires store.outputs.Keys <= ids && MigrationGraph.Injective(ids) && text !in ids
    ensures FirstFailure(host, store, RuntimeScan(text))
         == match Resolve(host, dumps, store, text) case Ok(_) => None case Err(e) => Some(e)
    ensures FirstLasting(host, ids, store, RuntimeScan(text))
         == match Resolve(host, dumps, RenamedStore(ids, store), Migration.RewriteText(ids, text))
            case Ok(_) => None
            case Err(e) => Some(e)
  {
    var rename := id => Migration.MapId(ids, id);
    var new', after := RenamedStore(ids, store), RewriteRefs(text, id => Migration.MapId(ids, id));
    MapIdKeepsRuntimeIds(ids);
    ScanIsValid(text);
    ScanHitsRenamed(text, rename);
    hide RuntimeScan, RewriteRefs, FirstFailure, FirstLasting, RenamedStore, ValidToken, KeepsRuntimeIds, HitsOf,
         FillAll, RenameTokens, MigrationGraph.Injective;
    LastingIsAfter(host, ids, store, RuntimeScan(text));
    FailureOfHits(host, new', RenameTokens(RuntimeScan(text), rename));
    FailureOfHits(host, new', RuntimeScan(after));
    FillFails(host, dumps, store, RuntimeScan(text));
    FillFails(host, dumps, new', RuntimeScan(after));
  }

  // ----- main results -----

  /**
   A migrated text, resolved against the renamed components, gives the original outcome, success or
   failure with the same name in it, exactly when the first failing reference is not captured and its
   report does not change, and, if nothing fails, every renamed reference is one the runtime finds.
   */
  lemma {:induction false} ResolvesTheSameIff(
      host: Host, dumps: Value -> string, ids: set<string>, store: Store, text: string)
    requires store.outputs.Keys <= ids && MigrationGraph.Injective(ids) && text !in ids
    ensures Resolve(host, dumps, RenamedStore(ids, store), Migration.RewriteText(ids, text))
         == Resolve(host, dumps, store, text)
       <==> && FirstLasting(host, ids, store, RuntimeScan(text)) == FirstFailure(host, store, RuntimeScan(text))
            && (FirstFailure(host, store, RuntimeScan(text)).None? ==>
                  AllFaithful(Scan(text), id => Migration.MapId(ids, id)))
  {
    FailuresAfter(host, dumps, ids, store, text);
    if FirstFailure(host, store, RuntimeScan(text)).None? {
      if AllFaithful(Scan(text), id => Migration.MapId(ids, id)) {
        FaithfulKeepsText(host, dumps, ids, store, text);
      } else {
        UnfaithfulShows(host, dumps, ids, store, text);
      }
    }
    hide Resolve, RuntimeScan, Scan, RenamedStore, Migration.RewriteText, FirstFailure, FirstLasting,
         MigrationGraph.Injective;
  }

  lemma {:induction false} FaithfulKeepsText(
      host: Host, dumps: Value -> string, ids: set<string>, store: Store, text: string)
    requires store.outputs.Keys <= ids && MigrationGraph.Injective(ids) && text !in ids
    requires AllFaithful(Scan(text), id => Migration.MapId(ids, id)) && Resolve(host, dumps, store, text).Ok?
    ensures Resolve(host, dumps, RenamedStore(ids, store), Migration.RewriteText(ids, text))
         == Resolve(host, dumps, store, text)
  {
    MapIdKeepsRuntimeIds(ids);
    RuntimeScanRewritten(text, id => Migration.MapId(ids, id));
    ScanIsValid(text);
    hide RuntimeScan, Scan, AllFaithful, RenamedStore, KeepsRuntimeIds, FillAll, ValidToken;
    FillAllRenamed(host, dumps, ids, store, RuntimeScan(text));
  }

  /** The reference names a component, or an id that the migration neither changes nor gives to one. */
  ghost predicate IsSettled(ids: set<string>, store: Store, t: Token) {
    t.Hit? && t.core.Variable? ==>
      t.core.id in store.outputs || (Migration.MapId(ids, t.core.id) == t.core.id && !IsCaptured(ids, store, t.core.id))
  }

  /** So the outcome is the same for every text of settled references whose renamed references the runtime finds. */
  lemma {:induction false} MigratedTextResolvesTheSame(
      host: Host, dumps: Value -> string, ids: set<string>, store: Store, text: string)
    requires store.outputs.Keys <= ids && MigrationGraph.Injective(ids) && text !in ids
    requires AllFaithful(Scan(text), id => Migration.MapId(ids, id)) && forall t :: t in RuntimeScan(text) ==>
              IsSettled(ids, store, t)
    ensures Resolve(host, dumps, RenamedStore(ids, store), Migration.RewriteText(ids, text))
         == Resolve(host, dumps, store, text)
  {
    ResolvesTheSameIff(host, dumps, ids, store, text);
    ScanIsValid(text);
    hide RuntimeScan, Scan, ValidToken, IsSettled, Resolve, RenamedStore, Migration.RewriteText;
    AllLast(host, ids, store, RuntimeScan(text));
  }

  lemma {:induction false} AllLast(host: Host, ids: set<string>, store: Store, ts: seq<Token>)
    requires store.outputs.Keys <= ids && forall t :: t in ts ==> IsSettled(ids, store, t) && ValidToken(t)
    ensures FirstLasting(host, ids, store, ts) == FirstFailure(host, store, ts)
  {
    if ts != [] {
      OneLasts(host, ids, store, ts[0]);
      hide IsSettled, ValidToken, Failing, Lasting;
      AllLast(host, ids, store, ts[1..]);
    }
  }

  lemma {:induction false} OneLasts(host: Host, ids: set<string>, store: Store, t: Token)
    requires store.outputs.Keys <= ids && IsSettled(ids, store, t) && ValidToken(t)
    ensures Lasting(host, ids, store, t) == Failing(host, store, t)
  {
    if t.Hit? && t.core.Variable? {
      KeyParses(t.core.id, t.core.name);
      hide Variables.Parse, IsCaptured, Migration.MapId, ReadOutput, Keys;
      if t.core.id in store.outputs {
        KnownIsNotCaptured(ids, store, t.core.id);
      }
    } else if t.Hit? {
      GlobalParses(t.core.key);
      hide Variables.Parse;
    }
  }

  lemma {:induction false} KnownIsNotCaptured(ids: set<string>, store: Store, id: string)
    requires store.outputs.Keys <= ids && id in store.outputs
    ensures !IsCaptured(ids, store, id)
  {
    hide Migration.RenameId;
  }

  // ----- captured references -----

  /** A captured reference dangles before the migration and reads a renamed component after it. */
  lemma {:induction false} CapturedReferenceResolves(
      host: Host, dumps: Value -> string, ids: set<string>, store: Store, id: string, name: string)
    requires store.outputs.Keys <= ids && MigrationGraph.Injective(ids) && IsCaptured(ids, store, id)
    requires IsKey(id, name) && name != "" && "{" + id + "@" + name + "}" !in ids
    ensures var text := "{" + id + "@" + name + "}";
            && Resolve(host, dumps, store, text) == Err(NoSuchComponent(Variables.Parse(id + "@" + name)))
            && Migration.RewriteText(ids, text) == text
            && Resolve(host, dumps, RenamedStore(ids, store), text).Ok?
  {
    var text, r := "{" + id + "@" + name + "}", Ref("{", "", id, name, "", "}");
    OneReference(id, name);
    RewriteOne(ids, r);
    hide RuntimeScan, ValidRef;
    var hit := Hit(Variable(id, name));
    var rename := i => Migration.MapId(ids, i);
    FillRenamed(host, dumps, ids, store, hit);
    assert RenamedToken(hit, rename) == hit;
    assert [hit][1..] == [];
    hide Fill, RenamedStore, IsCaptured, MigrationGraph.Injective;
    var v := Fill(host, dumps, RenamedStore(ids, store), hit);
    assert FillAll(host, dumps, RenamedStore(ids, store), [hit]) == After(v.value, Ok(""));
  }

  lemma {:induction false} OneReference(id: string, name: string)
    requires IsKey(id, name) && name != ""
    ensures ValidRef(Ref("{", "", id, name, "", "}"))
    ensures Ref("{", "", id, name, "", "}").Text() == "{" + id + "@" + name + "}"
    ensures RuntimeScan("{" + id + "@" + name + "}") == [Hit(Variable(id, name))]
  {
    var text, r := "{" + id + "@" + name + "}", Ref("{", "", id, name, "", "}");
    assert ValidRef(r) by {
      assert forall c :: c in id ==> IsRuntimeIdChar(c);
    }
    assert r.Text() == text;
    FoundTokens(r, "");
    hide All, ValidRef;
    assert text + "" == text;
    var hit := Hit(Variable(id, name));
    assert "{"[1..] == "" && "}"[1..] == "" && [hit][1..] == [];
    assert Cores(text) == [hit];
    ScanOnTokens(text);
    assert TokenScan([hit]) == [hit];
  }

  /** What a reference alone resolves to: nothing for null, a text as it is, anything else as `json.dumps` writes it. */
  lemma {:induction false} ReferenceAlone(host: Host, dumps: Value -> string, store: Store, id: string, name: string)
    requires IsKey(id, name) && name != ""
    ensures Resolve(host, dumps, store, "{" + id + "@" + name + "}") ==
              match GetVariable(host, store, id + "@" + name)
              case Err(e) => Err(e)
              case Ok(v) => Ok(if v == Null then "" else if v.Str? then v.text else dumps(v))
  {
    OneReference(id, name);
    var hit := Hit(Variable(id, name));
    assert [hit][1..] == [] && FillAll(host, dumps, store, []) == Ok("");
    hide RuntimeScan, ValidRef, GetVariable;
    var v := GetVariable(host, store, id + "@" + name);
    if v.Ok? {
      assert Written(dumps, v.value) + "" == Written(dumps, v.value);
    }
  }

  /** With a component `Splitter:a`, the dangling reference `{TokenChunker:a@x}` is one. */
  lemma {:induction false} CaptureHappens(entries: Entries)
    ensures MigrationGraph.Injective({"Splitter:a"})
    ensures IsCaptured({"Splitter:a"}, Store(map[], map["Splitter:a" := entries]), "TokenChunker:a")
  {
    var store := Store(map[], map["Splitter:a" := entries]);
    Migration.RenameCases("Splitter:a");
    hide Migration.RenameId;
    assert "Splitter:a"[9..] == "a" && "TokenChunker:" + "a" == "TokenChunker:a";
    assert "Splitter:a" in store.outputs && Migration.RenameId("Splitter:a") == "TokenChunker:a";
    assert "TokenChunker:a"[0] != "Splitter:a"[0];
  }

  // ----- texts that are ids -----

  /** A text that is a component id is renamed as one, so its outcome stays exactly when the id does. */
  lemma {:induction false} IdTextIsRenamed(
      host: Host, dumps: Value -> string, ids: set<string>, before: Store, after: Store, text: string)
    requires text in ids && '{' !in text
    ensures Resolve(host, dumps, before, text) == Ok(text)
    ensures Resolve(host, dumps, after, Migration.RewriteText(ids, text)) == Ok(Migration.RenameId(text))
    ensures Resolve(host, dumps, after, Migration.RewriteText(ids, text)) == Resolve(host, dumps, before, text)
       <==> Migration.RenameId(text) == text
  {
    Migration.RenameCases(text);
    hide Migration.RenameId, Resolve;
    PlainText(host, dumps, before, text);
    PlainText(host, dumps, after, Migration.RenameId(text));
  }

  lemma {:induction false} PlainText(host: Host, dumps: Value -> string, store: Store, text: string)
    requires '{' !in text
    ensures Resolve(host, dumps, store, text) == Ok(text)
  {
    CharsStep(text, "");
    assert text + "" == text && Chars(text) + [] == Chars(text) && Cores("") == [];
    ScanOnTokens(text);
    ScanChars(text);
    hide RuntimeScan, TokenScan, Cores;
    FillChars(host, dumps, store, text);
  }

  // ----- hidden references -----

  /** A reference that the runtime does not find is renamed, but is text before and after. */
  lemma {:induction false} HiddenReferenceIsRenamedOnly(
      host: Host, dumps: Value -> string, ids: set<string>, before: Store, after: Store, r: Ref)
    requires ValidRef(r) && !Compatible(r) && r.Text() !in ids
    ensures Resolve(host, dumps, before, r.Text()) == Ok(r.Text())
    ensures Resolve(host, dumps, after, Migration.RewriteText(ids, r.Text()))
         == Ok(r.(id := Migration.MapId(ids, r.id)).Text())
  {
    var rename := id => Migration.MapId(ids, id);
    var q := r.(id := rename(r.id));
    MapIdKeepsRuntimeIds(ids);
    assert ValidRef(q) && !Compatible(q);
    hide All, ValidRef, Compatible, Resolve;
    HiddenAlone(host, dumps, before, r);
    HiddenAlone(host, dumps, after, q);
    RewriteOne(ids, r);
  }

  /** A blank inside the braces is enough: `{ Splitter:a@b}`. */
  lemma {:induction false} BlankHides()
    ensures var r := Ref("{", " ", "Splitter:a", "b", "", "}");
            ValidRef(r) && !Compatible(r) && Migration.MapId({"Splitter:a"}, r.id) != r.id
  {
    var id := "Splitter:a";
    Migration.RenameCases(id);
    assert Migration.RenameId(id)[0] == 'T';
  }

  lemma {:induction false} RewriteOne(ids: set<string>, r: Ref)
    requires ValidRef(r) && r.Text() !in ids
    ensures Migration.RewriteText(ids, r.Text()) == r.(id := Migration.MapId(ids, r.id)).Text()
  {
    var rename := id => Migration.MapId(ids, id);
    var q := r.(id := rename(r.id));
    var text := r.Text();
    MatchComplete(r, "");
    RefOpens(r);
    assert r.Text() + "" == text;
    hide MatchRef, ValidRef;
    assert Scan("") == [];
    assert Scan(text) == [Found(r)];
    assert [Found(r)][1..] == [] && [Found(q)][1..] == [];
    assert RenameAll([Found(r)], rename) == [Found(q)];
    assert Render([Found(q)]) == q.Text() + "";
  }

  /** A reference that is hidden from the runtime stays as it is written. */
  lemma {:induction false} HiddenAlone(host: Host, dumps: Value -> string, store: Store, r: Ref)
    requires ValidRef(r) && !Compatible(r)
    ensures Resolve(host, dumps, store, r.Text()) == Ok(r.Text())
  {
    FoundTokens(r, "");
    assert r.Text() + "" == r.Text();
    assert Cores(r.Text()) == Chars(r.Text()) by {
      hide Chars;
    }
    ScanOnTokens(r.Text());
    ScanChars(r.Text());
    hide RuntimeScan, TokenScan, Cores, ValidRef;
    FillChars(host, dumps, store, r.Text());
  }

  lemma {:induction false} SkipKeepsChars(s: string, c: char)
    ensures exists t :: Skip(Chars(s), c) == Chars(t)
  {
    if s != [] && s[0] == c {
      assert Chars(s)[1..] == Chars(s[1..]);
      SkipKeepsChars(s[1..], c);
    } else {
      assert Skip(Chars(s), c) == Chars(s);
    }
  }

  lemma {:induction false} ScanChars(s: string)
    ensures TokenScan(Chars(s)) == Chars(s)
  {
    if s != [] {
      SkipKeepsChars(s, '{');
      var t :| Skip(Chars(s), '{') == Chars(t);
      SkipKeepsChars(t, ' ');
      var u :| Skip(Chars(t), ' ') == Chars(u);
      hide Skip;
      ScanChars(s[1..]);
      assert Chars(s)[1..] == Chars(s[1..]);
    }
  }

  lemma {:induction false} FillChars(host: Host, dumps: Value -> string, store: Store, s: string)
    ensures FillAll(host, dumps, store, Chars(s)) == Ok(s)
  {
    if s != [] {
      FillChars(host, dumps, store, s[1..]);
      assert Chars(s)[1..] == Chars(s[1..]);
      assert [s[0]] + s[1..] == s;
    }
  }
}
