# Verified models of the RAGFlow core

A Dafny model of four parts of RAGFlow, with proofs of what they are for:

1. **The canvas scheduler** (`agent/canvas.py`). A run of a component graph works in batches over one
   growing list, the path. A batch is the window of the path from `idx` on; admission may pop entries
   whose references are not earlier in the path, post-processing appends what comes next, and a run
   may fail, be cancelled, or suspend at a form and be resumed later. Component calls are an oracle
   for error, branch, end of loop and "still streaming". `Scheduler.dfy` is the state machine,
   `Canvas.dfy` the imperative program, proved to refine it; `Admission`, `WakeUp`, `Completion`,
   `Suspension`, `Termination`, `Provenance` (where executed entries come from, and where they lead)
   and `Outcomes` (which errors end a run, what is told) hold the theorems over whole runs, and
   `SampleRun` has runs that meet their hypotheses. `Variables.dfy` models the dotted variable
   references and their lens laws on values, `References.dfy` how they are written, `DictObjects.dfy`
   the dict objects that the program edits in place, and shows that they behave like those values.
2. **Metadata filters.** `MetaFilter.dfy` is the in-memory filter, `EsFilter.dfy` its translation to
   Elasticsearch with an evaluator for the queries, `Pushdown.dfy` the comparison of the two.
   `FilterLaws.dfy` says what each operator means in memory and which are complements,
   `TranslationLaws.dfy` what is refused and what each translation asks.
   `InfinityFilter.dfy` is the translation to SQL text, `Sql.dfy` a lexer and parser for that text,
   `InfinityMeaning.dfy` and `InfinityQuery.dfy` the proof that the text means what the filters ask.
   `Wildcard.dfy` has the pattern escaping that both use.
3. **The DSL migration** (`agent/dsl_migration.py`). `RefScan.dfy` models the reference pattern,
   `Migration.dfy` the renaming and its idempotence, `MigrationGraph.dfy` the graph isomorphism,
   `MigrationNames.dfy` and `MigrationTexts.dfy` what is renamed and what stays, `MigrationProgram.dfy`
   the loops. `RuntimeRefs.dfy` and `Templates.dfy` model the references that
   the canvas resolves at run time, `Resolution.dfy` and `MigratedTemplates.dfy` what the migration
   does to them.
4. **Evaluation tools.** `McNemar.dfy`, `Kappa.dfy`, and `Checkpoint.dfy`, a recovery protocol over
   arbitrary histories of crashing, failing and completing runs.

`dafny verify dfyconfig.toml` checks the whole project.

## Where the code differs from what is said about it

- *Negated filters on multi-valued fields.* Comments in both translators say that `not contains` is
  expressed correctly on multi-valued fields (common/metadata_infinity_filter.py:68-70). It is not:
  `Pushdown.NotContainsDiffersOnMixedField` has a document that the in-memory filter selects and the
  query rejects. `Pushdown.NegativeIncluded` gives the exact condition: no field with both an
  accepted and a rejected value.
- *`contains` and `not contains` in Infinity* are complementary exactly when the text is not a number
  (`InfinityQuery.NotContainsNegatesContains`): `contains` looks for the number then, `not contains`
  for the string.
- *The checkpoint fingerprint* leaves out dataset, kind and review status, so a completing run can
  return a row with a stale value of one of them (`Checkpoint.StaleReviewStatusIsReused`).
  `Checkpoint.Recovery` says exactly when a returned row is the evaluation of the current case.
- *A failed run* keeps the path below the failing batch, not the batch itself
  (`Admission.FailureIsBatchAtomic`).
- *The lens laws* fail for the anonymous output `c@`, which reads all outputs but writes one: without
  keys it never reads back what was written, and `c@.a` reads the old output `a`. From two keys on the
  write edits the dict that output `a` holds, if it holds one, so that `c@.a.b` and `c@a.b` both read
  the new value (`Variables.AnonymousOutputIsNotALens`). `Variables.GetAfterSetIff` and
  `Variables.SetAfterSetIff` say exactly when the laws hold. The frame law fails at a list, which a write
  replaces (`Variables.ListNodeIsReplaced`), and exactly where a path parts below something that is
  neither dict nor null and had something to read (`Variables.SetFrame`).
- *Outputs can share a dict.* Overwriting a variable stores the very object that was read
  (agent/component/variable_assigner.py:87-88), and an anonymous write stores a collection of the
  outputs' own dicts. Whoever holds the same dict sees a later write to it
  (`DictObjects.SharersSeeTheWrite`). The frame law is for outputs that share no dict; writes to named
  outputs keep it so (`DictObjects.SetShows`).
- *A crash inside a row* makes the checkpoint unreadable: every run that would resume is turned away,
  until a run that does not resume completes (`Checkpoint.TornRowBlocksResuming`).
- *The migration's reference pattern is wider than the runtime's.* It allows blanks inside the braces
  and `-` in ids. Such a reference is renamed, but is plain text at run time before and after
  (`MigratedTemplates.HiddenReferenceIsRenamedOnly`). `Resolution.RewritingIsFaithful` shows that this
  is the only difference in what is found.
- *The migration can give a dangling reference a target.* With a component `Splitter:a`, the text
  `{TokenChunker:a@x}` names no component; afterwards `Splitter:a` carries that id, and the reference
  resolves (`MigratedTemplates.CapturedReferenceResolves`, `MigratedTemplates.CaptureHappens`).
  `MigratedTemplates.ResolvesTheSameIff` says exactly when a text keeps its outcome.
- *A key accepted by the Infinity translator* may end in a newline, because `$` also stands before a
  final one. It does no harm: the key is inside a literal.

## Model

| member | source | states |
|---|---|---|
| CanvasProgram.Canvas.IsHeldBack | agent/canvas.py:581-582 | the loop over input elements answers whether a referenced component is missing from the path so far, on a run that is not a resumed one |
| CanvasProgram.Canvas.AdmitBatch | agent/canvas.py:570-589 | popping in place leaves the path below the batch followed by the admitted entries |
| CanvasProgram.Canvas.ExtendPath | agent/canvas.py:733-746 | appends the ids in order, skipping each one that is already last |
| CanvasProgram.Canvas.Release | agent/canvas.py:704-709 | takes finished streams off the front of the queue up to the first unfinished one, with one completion event each |
| CanvasProgram.Canvas.Speak | agent/canvas.py:655-709 | a message event and the release of finished streams, for Message components only |
| CanvasProgram.Canvas.HandleError | agent/canvas.py:711-721 | goto extends the path and blocks other branches, a default value speaks, anything else sets the run's error |
| CanvasProgram.Canvas.Report | agent/canvas.py:723-750 | a component is queued while it streams in an error-free run, otherwise reported; an ended item also reports its container |
| CanvasProgram.Canvas.PostProcess | agent/canvas.py:652-761 | one pass of the post-processing loop is one step of the state machine |
| CanvasProgram.Canvas.HandOn | agent/canvas.py:748-761 | the if-chain after an entry extends the path by what the state machine offers |
| CanvasProgram.Canvas.PostProcessBatch | agent/canvas.py:652-761 | the post-processing loop processes exactly the admitted entries, in order |
| CanvasProgram.Canvas.Announce | agent/canvas.py:637-648 | start events for the batch, up to the first unknown component |
| CanvasProgram.Canvas.OneBatch | agent/canvas.py:635-785 | a pass of the main loop is one batch step, with its status and next index |
| CanvasProgram.Canvas.Conclude | agent/canvas.py:763-785 | failure cuts the path, a form with open inputs suspends, an empty rest finishes, anything else goes on |
| CanvasProgram.Canvas.RunImpl | agent/canvas.py:516-785 | the whole imperative run ends in the state the state machine gives, with the same path, error and events; cancelled before the start, it leaves only the appended Begin |
| Scheduler.StepShape | agent/canvas.py:635-785 | what each outcome of a batch leaves of path, index, batches, trace and queue |
| Admission.AdmitChoice | agent/canvas.py:570-589 | survivors are a subsequence of the batch, and an entry survives exactly when it passes the test against the path below and the survivors before it |
| Admission.AdmitKeepsReady | agent/canvas.py:580-589 | an entry whose references are all below the batch is never popped |
| Admission.AdmissionSafety | agent/canvas.py:570-766 | in every state of every fresh run, however it ends: the completed batches, and a failing batch on top, are exactly what was executed above the old path; every executed entry other than Begin and UserFillUp has all its references earlier; and unless the run suspends this is the processed part of the path |
| Admission.FailureIsBatchAtomic | agent/canvas.py:711-785 | when an unhandled error ends a run, the saved path is the old path and the completed batches, whatever the failing batch popped or appended |
| WakeUp.NoLostWakeUp | agent/canvas.py:570-761 | in a finished run a component whose references all execute as plain nodes directly upstream executes after every execution of every one of them, however often it was popped |
| Completion.CompletionConservation | agent/canvas.py:704-751 | in every reachable state, between batches and after every entry post-processed within one, completion events plus queued occurrences equal processed occurrences for each component that is no container (closings for a container), and the queue is first in, first out |
| Suspension.ResumedRunPopsNothing | agent/canvas.py:516-589 | in every reachable state of a resumed run admission pops nothing |
| Suspension.StablePartition | agent/canvas.py:768-770 | the saved path is a stable partition, forms first, and loses nothing exactly when all pending components exist |
| Suspension.FormIdsResume | agent/canvas.py:516-516 | a path that starts with the id the editor gives to a form, in either case, is resumed; one that starts with Begin, or is empty, is not |
| Suspension.SuspendResumeLosesNothing | agent/canvas.py:516-784 | a suspended run saves a permutation of the pending suffix, the next run resumes it from its first entry without Begin, and its first batch is the whole of it |
| Termination.RunEnds | agent/canvas.py:635-766 | without containers and cycles, and with branches and goto targets among the downstream ids, a run ends within as many batches as the longest walk has nodes, whatever is deferred |
| Provenance.EveryEntryWasHandedOn | agent/canvas.py:652-770 | in every reachable state: the first executed entries are Begin or the saved path; every later one was handed on by an earlier executed entry, as goto target of its handler, downstream of its ended or left container, chosen branch, start of a container, start of its own container from a last node inside, or downstream of a plain node; and so was every pending entry, the path saved at a form included |
| Provenance.EverythingHandedOnStands | agent/canvas.py:733-761 | the converse: between any two batches everything that an entry of the last batch hands on stands in the path, at or after the position that was the last when the entry was post-processed |
| Provenance.StepHandsOn | agent/canvas.py:711-761 | one entry appends nothing but what it hands on, and all of it stands from the old end of the path on |
| Provenance.StepAppends | agent/canvas.py:711-761 | what each kind of entry appends, in order: the goto list as it is, otherwise the chosen, downstream or container list without immediate repetitions |
| Outcomes.UnhandledErrorsEndRuns | agent/canvas.py:711-766 | a run has failed exactly when an executed entry showed an error without a handler, or with one that has neither targets nor a default; the reported error is that of the last such entry |
| Outcomes.EntriesAreRecorded | agent/canvas.py:723-761 | in every reachable state an entry has queued its stream exactly when it streams, is neither Message nor container, and no unhandled error has come up; has closed its container exactly when it is an ended item; has run on to its downstream list exactly when it is no special case |
| Outcomes.EventsAreTold | agent/canvas.py:655-793 | in every reachable state each component has spoken once for every executed Message entry of it and once for every default in place of an error; start, question to the user and end are told once or not at all, by how the run stands |
| Outcomes.MessageReleases | agent/canvas.py:704-709 | only a Message releases waiting streams: from the head up to the first that still runs, its own counting as read |
| Outcomes.MessageOrder | agent/canvas.py:655-731 | a Message without error speaks, then reports the streams it releases, then itself |
| Outcomes.ItemOrder | agent/canvas.py:723-750 | an item that ends is reported, and its container right after it |
| Outcomes.BatchIsAnnounced | agent/canvas.py:637-648 | before anything else in a batch every entry of it is announced in order, also those popped later |
| Outcomes.BatchEnds | agent/canvas.py:763-785 | after a batch without error the run suspends exactly when a pending form needs input, else finishes exactly when nothing is pending |
| SampleRun.PoppedThenWoken | agent/canvas.py:570-589 | a run in which a component is popped in the second batch and executes in the third, after the one it refers to |
| SampleRun.WakeUpApplies | agent/canvas.py:733-761 | that run meets the hypotheses of the wake-up theorem |
| SampleRun.BoundIsAttained | agent/canvas.py:635-766 | that run meets the hypotheses of the termination theorem and is still running one batch before the bound, so the bound is tight |
| SampleRun.StopsAtForm | agent/canvas.py:768-784 | a run that suspends at a form |
| Variables.Graph.GetParamValue | agent/canvas.py:254-281 | the loop over the keys reads at the dotted path |
| Variables.ElementLaws | agent/canvas.py:271-277 | list indices count from the front, or from the back if negative; out of range or not a number there is nothing |
| References.JsonTextsAreRead | agent/canvas.py:254-280 | below a text one reads in the dict or list it is the JSON of, and nothing if it is no JSON |
| References.BracesDoNotMatter | agent/canvas.py:231-232 | braces around a reference, with or without blanks and a second pair within, do not change what it names |
| Variables.Graph.Get | agent/canvas.py:231-252 | globals, components and nested paths, with both failures |
| Variables.Graph.Set | agent/canvas.py:283-316 | the new store, or a failure that leaves the store as it was; an anonymous write also edits the output it reaches |
| Variables.ReadWritten | agent/canvas.py:254-316 | reading at any non-empty path of a dict what was written there |
| Variables.WriteTwice | agent/canvas.py:306-316 | a second write at a path overwrites the first without a trace |
| Variables.ReadElsewhere | agent/canvas.py:254-316 | a path that parts from the written one below dicts, null or absent nodes reads the same before and after |
| Variables.ReadElsewhereIff | agent/canvas.py:254-316 | a path that parts from the written one reads the same if and only if it parts below such nodes, or read nothing before |
| Variables.GetAfterSet | agent/canvas.py:231-316 | get after set, for every reference with a named output or to a global and every accepted write |
| Variables.GetAfterSetIff | agent/canvas.py:231-316 | get after set holds if and only if the reference is named, reaches into an output's dict, or the value is what the anonymous reference reads past the place of the write |
| Variables.SetAfterSet | agent/canvas.py:283-316 | set after set, on the whole store, for named references |
| Variables.SetAfterSetIff | agent/canvas.py:283-316 | set after set holds if and only if the reference is named, has no keys, or has only empty keys along dicts that repeat themselves |
| Variables.SetFrame | agent/canvas.py:231-316 | a reference to another place than the ones the write edits reads the same after it if and only if the two part below dicts, null or absent nodes, or it read nothing before; anonymous references included |
| Variables.SetFailsIff | agent/canvas.py:283-316 | a write fails exactly for an unknown component, or a nested path into an output that is neither empty nor a dict |
| Variables.AnonymousOutputIsNotALens | agent/canvas.py:231-316 | for every value: without keys an anonymous reference never reads back what was written; if it reaches an output's dict it does, and so does the output's name; with any other first key it reads the old output of that name |
| Variables.AnonymousReference | agent/component/base.py:444-447 | `c@.a.b`, for an output `a` that is a dict, reads back what was written, and so does `c@a.b` |
| Variables.ListNodeIsReplaced | agent/canvas.py:306-316 | an instance: a write through a list replaces it, so its elements read differently |
| DictObjects.SetParamValue | agent/canvas.py:306-316 | the loop that descends through dict objects, making missing ones, edits memory as the recursive write does |
| DictObjects.WriteShows | agent/canvas.py:306-316 | editing a tree of dict objects in place shows exactly what writing to the value gives, keeps it a tree, and changes no dict outside it |
| DictObjects.SetShows | agent/canvas.py:283-304 | for outputs that share no dict, setting a variable in memory fails exactly when the value model does, otherwise shows its result, anonymous writes included, and changes no other dict; named writes keep the outputs from sharing |
| DictObjects.OthersUntouched | agent/canvas.py:283-316 | what another holder shows without a dict in common stays |
| DictObjects.SharersSeeTheWrite | agent/component/variable_assigner.py:87-88 | whoever holds the same dict as a named output sees every nested write to it |
| Wildcard.EscapeIsCharwise | common/metadata_es_filter.py:576-578 | the three successive replacements are one character-wise escape, for Elasticsearch and for LIKE |
| Wildcard.ContainsPattern | common/metadata_es_filter.py:295-304 | the escaped text between two stars matches exactly the values that contain the text |
| Wildcard.EndsPattern | common/metadata_es_filter.py:310-312 | the escaped text after a star matches exactly the values that end with the text |
| Wildcard.StartsPattern | common/metadata_infinity_filter.py:194-197 | the escaped text before a run character matches exactly the values that start with the text |
| MetaFilter.FlattenMetadata | api/db/services/doc_metadata_service.py:782-798 | a document is in the bucket of a value exactly when the value is among its values of the field |
| MetaFilter.FilterOut | common/metadata_utils.py:48-143 | the ids of all documents in matching buckets, and no others |
| MetaFilter.Run | common/metadata_utils.py:30-165 | the conjunction or disjunction of the filters, early return included |
| FilterLaws.EqualOrNot | common/metadata_utils.py:57-130 | for every bucket and value exactly one of `=` and `≠` matches, unless the value is a date and the bucket is not; then neither does |
| FilterLaws.InOrNot | common/metadata_utils.py:116-119 | for a text or a list exactly one of `in` and `not in` matches; without a value neither does |
| FilterLaws.ContainsOrNot | common/metadata_utils.py:112-127 | for a text exactly one of `contains` and `not contains` matches, otherwise neither; `empty` and `not empty` are complements |
| FilterLaws.EqualMeans | common/metadata_utils.py:63-128 | `=` is equality of lower-cased texts, of trimmed dates, of literals up to case, and of a typed value with the literal of the bucket |
| FilterLaws.TextOperators | common/metadata_utils.py:112-123 | `contains`, `start with` and `end with` look for the lower-cased text anywhere, at the start, at the end |
| FilterLaws.ShownOperators | common/metadata_utils.py:120-123 | `start with` and `end with` take a value that is no text as Python shows it |
| FilterLaws.MembershipMeans | common/metadata_utils.py:116-117 | `in` is equality up to case with a member of a list, or being a part of a text |
| FilterLaws.NotEqualSelects | common/metadata_utils.py:129-130 | `≠` with a text that is neither date nor literal selects exactly the documents with a value other than it, up to case |
| FilterLaws.NotInSelects | common/metadata_utils.py:118-119 | `not in` a list selects exactly the documents with a value outside it, up to case |
| EsFilter.ReadCsv | common/metadata_es_filter.py:488-491 | the trimmed non-blank parts |
| EsFilter.ReadMembers | common/metadata_es_filter.py:472-504 | lists, list literals and comma-separated strings become lower-case trimmed members; no value and no member are errors |
| FilterLaws.CsvPartsAre | common/metadata_es_filter.py:491-491 | the members of a comma-separated string are its trimmed parts without the blank ones, in order |
| FilterLaws.MembersAre | common/metadata_es_filter.py:472-504 | which values have no members; a list has its own, lower-cased and trimmed, a text those of the list it is the literal of, or of its comma-separated parts |
| EsFilter.PlanPushdown | common/metadata_es_filter.py:329-346 | every translation in order, or the first refusal |
| EsFilter.IsPushdownSupported | common/metadata_es_filter.py:349-368 | accepts exactly the lists without `≠`, `not in` and empty keys |
| TranslationLaws.RefusedIff | common/metadata_es_filter.py:194-236 | a filter is refused exactly for a missing key, a scalar operator without a text, a list operator without members, or a text operator without a non-empty text |
| TranslationLaws.LeftToMemoryIff | common/metadata_es_filter.py:329-369 | a request is left to the in-memory filter exactly for an unknown logic, a filter with `≠` or `not in`, or one that is refused |
| TranslationLaws.EqualityMeans | common/metadata_es_filter.py:264-273 | translated, `=` asks for a value that is the trimmed date, the literal text or the text, up to case, or leaves a number to the engine; `≠` asks for the field and the opposite |
| TranslationLaws.MembershipMeans | common/metadata_es_filter.py:284-293 | translated, `in` asks for a value that is some member up to case; `not in` asks for the field and the opposite |
| EsFilter.ClausesAreAtomic | common/metadata_es_filter.py:116-133 | every translated filter contributes one clause, which holds exactly when all its parts do |
| EsFilter.QueryMeaning | common/metadata_es_filter.py:147-177 | the query matches the documents of the knowledge bases that satisfy all filters, or some filter |
| Pushdown.SelectedMeaning | common/metadata_utils.py:30-165 | on a table of documents the in-memory filter selects the documents with a passing value, per filter and combined |
| Pushdown.FragmentAgrees | common/metadata_es_filter.py:258-312 | in the string fragment a translated filter holds for exactly the documents that pass it in memory |
| Pushdown.NegativeIncluded | common/metadata_es_filter.py:258-304 | `not contains` and `not empty` are translated to something at least as strict, and exactly as strict if and only if the document's field is not mixed |
| Pushdown.SingleValuedIsNotMixed | common/metadata_es_filter.py:258-304 | a field with at most one value is never mixed |
| Pushdown.NotContainsDiffersOnMixedField | common/metadata_es_filter.py:299-304 | a two-valued document on which query and in-memory filter differ |
| Pushdown.EmptyIsWider | common/metadata_es_filter.py:238-256 | the query for `empty` also matches the documents without the field, and nothing else more |
| Pushdown.PushdownAgrees | common/metadata_es_filter.py:116-346 | for every non-empty request of exact filters, under either logic, query and in-memory filter agree on every document |
| Pushdown.PushdownIncluded | common/metadata_es_filter.py:116-346 | with negated filters on any document, the query selects nothing that the in-memory filter does not |
| Pushdown.FilterByPushdown | api/db/services/doc_metadata_service.py:858-931 | no answer when refused or over the limit, otherwise exactly the ids of the matching documents |
| Pushdown.FilterInMemory | common/metadata_utils.py:236-238 | the in-memory fallback selects the passing documents of the knowledge bases |
| Pushdown.RunMetadataFilter | common/metadata_utils.py:223-238 | whichever path is taken, the result is the in-memory one if the request is refused or exact, and a subset of it with any negated filters |
| Pushdown.EmptyRequestsDiffer | common/metadata_utils.py:225-231 | for no filters the two paths would differ on every document, which the guard prevents |
| Sql.UnquoteEscaped | common/metadata_infinity_filter.py:308-309 | a literal with doubled quotes reads back as the text |
| Sql.ParseWritten | common/metadata_infinity_filter.py:112-218 | every condition, written with parentheses only around groups, is lexed and parsed back to itself with NOT before AND before OR |
| InfinityFilter.SplitMembers | common/metadata_infinity_filter.py:145-153 | the loop separates string and number parts, each in order |
| InfinityFilter.TranslateIn | common/metadata_infinity_filter.py:140-159 | the text for `in`, or the refusal of the value |
| InfinityFilter.TranslateNotIn | common/metadata_infinity_filter.py:161-180 | the text for `not in`, which has no outer parentheses |
| TranslationLaws.KeysAreIdentifiers | common/metadata_infinity_filter.py:24-29 | the accepted keys are the identifiers, and the identifiers followed by one newline |
| TranslationLaws.RequestRefusedIff | common/metadata_infinity_filter.py:74-202 | a filter is refused exactly for such a key or for a value its operator cannot work with, by operator |
| TranslationLaws.PaddingIsIgnored | common/metadata_infinity_filter.py:244-267 | white space around a value does not make a number a text, or a text a number |
| InfinityMeaning.FragmentWritten | common/metadata_infinity_filter.py:112-202 | the string for every accepted filter, all fourteen operators, is the text of a condition; both nested escapings are undone by reading it |
| InfinityMeaning.FragmentMeaning | common/metadata_infinity_filter.py:112-202 | that condition says of a row what the filter asks; `start with` and `end with` hold for exactly the strings with that start or end; a range filter holds when the extracted number, or for a text the extracted string in the engine's order, is above, below, at or above, or at or below the value, as the sign says |
| InfinityQuery.BuildKeepsMeaning | common/metadata_infinity_filter.py:205-218 | the built string parses, and holds for exactly the rows that satisfy all filters, or some filter, with `not in` unparenthesised among them |
| InfinityQuery.WhereKeepsMeaning | api/db/services/doc_metadata_service.py:951-955 | the condition sent to the engine, `1=1` included, holds for exactly the rows of the knowledge bases that the filters ask for |
| InfinityQuery.NotInNegatesIn | common/metadata_infinity_filter.py:140-180 | as read by the engine, the two texts are complementary on every row |
| InfinityQuery.NotContainsNegatesContains | common/metadata_infinity_filter.py:182-192 | `not contains` is the negation of `contains` on all rows if and only if the text is no number |
| RefScan.MatchSplits | agent/dsl_migration.py:32-32 | a match is a prefix of the pattern's shape that takes all closing braces |
| RefScan.MatchComplete | agent/dsl_migration.py:32-32 | every such prefix is found, group by group |
| RefScan.ScanRewritten | agent/dsl_migration.py:63-71 | for every text the pieces found after rewriting are the pieces before with ids renamed |
| RefScan.RewriteWithIdentity | agent/dsl_migration.py:63-71 | renaming nothing rewrites nothing |
| Migration.MapIdTwice | agent/dsl_migration.py:53-61 | the id map is idempotent, so lists that are mapped twice are mapped once |
| Migration.ComponentsTwice | agent/dsl_migration.py:82-105 | rewriting the rewritten components changes nothing, also when new ids collide |
| Migration.GraphTwice | agent/dsl_migration.py:110-158 | neither do nodes and edges change a second time, edge-id replacement included |
| Migration.MigrationIsIdempotent | agent/dsl_migration.py:35-164 | migrating a second time changes nothing, on every document |
| MigrationGraph.ComponentsAreIsomorphic | agent/dsl_migration.py:82-107 | for an injective id map and known references, downstream, upstream and parent relations of the output are the image of the input's, the components are the images, and links name nothing but images |
| MigrationGraph.NodeImage | agent/dsl_migration.py:114-124 | node id and parent are mapped |
| MigrationGraph.EdgeImage | agent/dsl_migration.py:149-152 | edge source and target are mapped |
| MigrationGraph.DocumentImage | agent/dsl_migration.py:107-152 | path, nodes and edges of the migrated document are the image of the original's, position by position |
| MigrationNames.NoLegacyNames | agent/dsl_migration.py:16-105 | every migrated component comes from an original one under its new id; the name of its operator is the original's under the three pairs, so that no Splitter, HierarchicalMerger or PDFGenerator is left; its parameters and other fields only have references rewritten |
| MigrationNames.NodesAreRenamed | agent/dsl_migration.py:113-141 | every node has its type, label and name renamed by the spelled-out pairs and its form's references rewritten; its other fields stay |
| MigrationTexts.EdgesAreRenamed | agent/dsl_migration.py:143-158 | every edge has its ends mapped and its id rewritten, longest component id first; its other fields stay |
| MigrationTexts.OtherFields | agent/dsl_migration.py:160-164 | history, messages and reference have their texts rewritten; fields the migration does not know stay |
| MigrationTexts.TextsAreRewritten | agent/dsl_migration.py:63-80 | at every place inside a value a text is rewritten and anything else stays; no place appears or goes away |
| MigrationTexts.RaisesIff | agent/dsl_migration.py:89-107 | the migration raises exactly for a list or dict within a path or link list, or as an operator's name |
| MigrationNames.SortIsSorted | agent/dsl_migration.py:145-145 | the replacements are a permutation of the ids by falling length |
| MigrationNames.SortIsStable | agent/dsl_migration.py:145-145 | ids of the same length keep their order |
| MigrationNames.ReplaceFirst | agent/dsl_migration.py:156-157 | replacing starts at the first occurrence and goes on after it |
| MigrationGraph.TextReferencesAreMapped | agent/dsl_migration.py:63-80 | the references in any text are the original ones, ids mapped |
| MigrationGraph.NormalizeIsIdempotent | agent/dsl_migration.py:35-164 | a document that migrates without a type error does so again, to itself |
| MigrationProgram.NewComponentId | agent/dsl_migration.py:55-60 | the loop over the renames finds the new id |
| MigrationProgram.BuildIdMap | agent/dsl_migration.py:53-61 | the map has exactly the component ids, each with its new id |
| MigrationProgram.RewriteEachComponent | agent/dsl_migration.py:82-105 | fails exactly on an unhashable name or list item, otherwise builds the rewritten components in order |
| MigrationProgram.EditNodes | agent/dsl_migration.py:113-139 | every node is fixed, other entries stay |
| MigrationProgram.EditEdgeId | agent/dsl_migration.py:155-158 | the replacements one after the other, longest id first |
| MigrationProgram.EditEdge | agent/dsl_migration.py:145-158 | endpoints mapped and edge id rewritten |
| MigrationProgram.EditEdges | agent/dsl_migration.py:141-158 | every edge is fixed, other entries stay |
| MigrationProgram.EditGraph | agent/dsl_migration.py:110-158 | nodes and edges are edited, the rest of the graph stays |
| MigrationProgram.EditDocument | agent/dsl_migration.py:105-164 | components, path, graph and the three text fields are replaced where present |
| MigrationProgram.NormalizeChunkerDsl | agent/dsl_migration.py:35-164 | the whole program computes the migration, or raises exactly when it must |
| RuntimeRefs.ScanOnTokens | agent/component/base.py:358-359 | scanning a text with the runtime pattern is finding its cores first and then the blanks and braces around them |
| Resolution.FoundTokens | agent/component/base.py:358-358 | a reference of the migration is one of the runtime's exactly when it has no blank inside and no `-` in its id |
| Resolution.VariableIsRef | agent/component/base.py:358-358 | every component reference of the runtime is one of the migration's |
| Resolution.RewritingIsFaithful | agent/dsl_migration.py:63-71 | the runtime finds the same references, renamed, in the same text, if and only if every renamed reference is one it finds |
| Templates.GetValueWithVariable | agent/canvas.py:202-229 | the loop over matches fills in the text, or stops at the first missing variable |
| MigratedTemplates.ReferenceAlone | agent/canvas.py:202-229 | a text that is one reference becomes the value's text: nothing for null, a string as it is, JSON for anything else |
| References.BuiltinAlone | agent/component/base.py:358-358 | `{sys.x}` or `{env.x}`, in any case of the prefix, becomes the text of the global of exactly that name, or fails for that name |
| MigratedTemplates.MigratedTextResolvesTheSame | agent/canvas.py:202-252 | under an injective id map, a migrated text whose references name components, or ids that the migration neither changes nor gives away, and whose renamed references the runtime finds, resolves against the renamed components to the original outcome, success or failure |
| MigratedTemplates.ResolvesTheSameIff | agent/canvas.py:202-252 | for every text that is no component id, the outcomes, errors with the reference they name included, are equal if and only if the first failure is not captured and is reported alike and, when nothing fails, every renamed reference is one the runtime finds |
| MigratedTemplates.FailuresAfter | agent/canvas.py:202-252 | what fails after the migration is exactly what failed before and was not captured, reported with the new id |
| MigratedTemplates.UnfaithfulShows | agent/dsl_migration.py:63-71 | a renamed reference that the runtime does not find changes the resolved text |
| MigratedTemplates.CapturedReferenceResolves | agent/dsl_migration.py:63-71 | every captured reference fails before the migration and resolves after it |
| MigratedTemplates.CaptureHappens | agent/dsl_migration.py:53-61 | with a component `Splitter:a`, the reference `{TokenChunker:a@x}` is captured |
| MigratedTemplates.IdTextIsRenamed | agent/dsl_migration.py:63-65 | a text that is a component id, without braces, is renamed as one, and resolves the same if and only if the id stays |
| MigratedTemplates.HiddenReferenceIsRenamedOnly | agent/dsl_migration.py:32-32 | a reference that the runtime does not find is renamed but stays text, for every such reference |
| MigratedTemplates.BlankHides | agent/dsl_migration.py:32-32 | a blank after the brace makes such a reference |
| McNemar.TailCounts | tools/cs_interview_rag_ab_eval.py:224-225 | twice the binomial sum counts the outcomes at least as extreme, plus the middle ones counted double on a tie |
| McNemar.ExactIsTwoSidedTail | tools/cs_interview_rag_ab_eval.py:220-226 | the value times 2^n is the number of sign vectors at least as extreme as the observed one, and lies in (0, 1] |
| McNemar.ClipBindsOnlyOnTies | tools/cs_interview_rag_ab_eval.py:225-226 | the unclipped value exceeds 1 exactly when the counts are equal |
| McNemar.ExactIsMonotone | tools/cs_interview_rag_ab_eval.py:220-226 | for a fixed number of discordant pairs the value does not fall as the smaller count grows |
| Kappa.LowerBound | tools/cs_interview_labeled_import.py:72-77 | twice the chance agreement is at most one plus the observed agreement, for all marginals |
| Kappa.UpperBound | tools/cs_interview_labeled_import.py:75-77 | chance agreement is at most one, with equality exactly when both raters use one label throughout |
| Kappa.ExpectedBounds | tools/cs_interview_labeled_import.py:72-77 | the same for the quotients, and observed agreement is one exactly on full agreement |
| Kappa.UndefinedIffOneLabel | tools/cs_interview_labeled_import.py:67-80 | kappa is undefined exactly for fewer than two pairs, or when both raters use one and the same label throughout |
| Kappa.Range | tools/cs_interview_labeled_import.py:67-80 | kappa is in [-1, 1], also after rounding, and is 1 before rounding exactly on full agreement |
| Kappa.Value | tools/cs_interview_labeled_import.py:67-80 | kappa times n² minus the chance sum is n times the agreements minus the chance sum, on the integer counters; it is zero exactly when the two are equal, and has the sign of their difference |
| Kappa.OrdersByAgreement | tools/cs_interview_labeled_import.py:67-80 | of two ratings of equal length with equal marginals, the one with more agreements has the larger kappa, and conversely |
| Kappa.CountersCount | tools/cs_interview_labeled_import.py:72-76 | the counters count occurrences of a label in each column and positions of agreement |
| Checkpoint.LastRowsAreLast | tools/cs_interview_rag_ab_eval.py:48-62 | the loaded table has exactly the last row of each id |
| Checkpoint.FingerprintCovers | tools/cs_interview_rag_ab_eval.py:37-44 | two cases have the same fingerprint exactly when they agree on id, query, expected source and state |
| Checkpoint.RowTells | tools/cs_interview_rag_ab_eval.py:185-202 | a row carries the fields of its case, and results that depend on fingerprint and dataset only |
| Checkpoint.Evaluator.LoadCheckpoint | tools/cs_interview_rag_ab_eval.py:48-62 | the table of last rows, or the number of the first broken line |
| Checkpoint.Evaluator.EvaluatePending | tools/cs_interview_rag_ab_eval.py:337-349 | appends one row per evaluated case, also after a failure, and reports a failure |
| Checkpoint.Evaluator.Collect | tools/cs_interview_rag_ab_eval.py:352-352 | one row per current case, in case order |
| Checkpoint.Evaluator.Run | tools/cs_interview_rag_ab_eval.py:327-355 | the log and the outcome of every run, crashes between rows and inside a row included; a completing run compacts the log to the returned rows |
| Checkpoint.HistoryIsHonest | tools/cs_interview_rag_ab_eval.py:327-355 | after any history every line of the log is the evaluation of a case of that history, or what a crash left of one |
| Checkpoint.Recovery | tools/cs_interview_rag_ab_eval.py:37-69 | after any history of runs each returned row has the current fingerprint, and is the evaluation of the current case exactly when it was not reused or agrees on the fields outside the fingerprint |
| Checkpoint.ExactRecovery | tools/cs_interview_rag_ab_eval.py:327-355 | where fingerprints determine cases, a completing run returns exactly the evaluations of the current cases, in order |
| Checkpoint.EvaluatesOnlyWhatIsMissing | tools/cs_interview_rag_ab_eval.py:327-334 | every run, crashing ones included, evaluates a case only when resuming is off, its id is empty, or its last durable row does not match; a run that gets to the end evaluates all of these |
| Checkpoint.CompletedWorkSurvives | tools/cs_interview_rag_ab_eval.py:337-349 | what a run evaluated, even one that failed or crashed later, is not evaluated again by the next one |
| Checkpoint.TornRowBlocksResuming | tools/cs_interview_rag_ab_eval.py:48-62 | after a crash inside a row, through any history, every run that would resume is turned away and leaves the log as it is; the log becomes readable again exactly by a run that does not resume and completes |
| Checkpoint.StaleReviewStatusIsReused | tools/cs_interview_rag_ab_eval.py:37-44 | a changed review status does not change the fingerprint, so the old row is returned |

## Left out

- Termination.RunEnds: graphs with Loop or Iteration, or with a goto that leads elsewhere than downstream, where a run need not end.
- MigratedTemplates.ResolvesTheSameIff: texts that are component ids; for those without braces there is MigratedTemplates.IdTextIsRenamed.
- Templates.GetValueWithVariable: values that are still streams; `json.dumps` is a parameter.
- Variables.Graph.Set: works on values, which is what DictObjects.SetShows justifies for outputs that share no dict; on outputs that share dicts, through an overwriting assignment or after an anonymous write, a write shows in all places. The attributes of other objects are a parameter.
- Variables.SetAfterSetIff: after an anonymous write the stored collection shares the outputs' dicts, so a second one also changes the collection stored by the first; the verdict is the same, because the second collection has the first inside it either way.
- DictObjects.SetShows: dicts inside lists are part of the list's value; a write never edits them.
- MetaFilter.Run: the four range comparisons, and membership lists with members that are not strings; `ast.literal_eval` is a parameter, and of the lists it can read only lists of strings are told apart.
- Pushdown.PushdownAgrees: no claim for `empty`, comma-separated `in`, untrimmed values, dates and literals, where the two semantics differ; numeric terms, the length limit of keyword fields and dynamic mapping belong to the engine.
- Pushdown.RunMetadataFilter: push-down goes to Elasticsearch; the answers of Infinity depend on JSON_CONTAINS.
- Pushdown.FilterByPushdown: failing requests and the parsing of the response; the limit is compared with the number of matching documents.
- InfinityMeaning.FragmentMeaning: what JSON_CONTAINS answers, the number extracted from a field, the order of strings and the number that a text reads as are parameters; `LIKE` uses the backslash as escape character.
- Checkpoint.Evaluator.Run: a row cut off exactly before its line end, which reads as a row but would run into the next one; fingerprints are equal only for equal payloads, as for a hash without collisions.
- Kappa.Range: arithmetic over reals; binary rounding inside the quotients is not modelled.
- McNemar.ExactIsTwoSidedTail: the quotient is a real, not a rounded float.
- CanvasProgram.Canvas.RunImpl: the contents of messages, speech, timing, logging and the thread pool; a branch component that leaves `_next` unset.
- Lower-casing, white space and digits are those of ASCII (white space includes 0x1C to 0x1F, as in Python).
- Iteration aliases in templates, cluster bootstrap, latency statistics, HTTP, file parsing, the other tools, and the services around these parts: easy members or the behaviour of other systems.
