# Deep research orchestration, modelled in Dafny

This project models the sequential core of the opensearch research agent.

The agent takes a research topic through several rounds. Each round runs
web searches, asks a reasoning service to reflect on the batch of results,
extracts facts from the relevant results, and then either writes a cited
answer or generates follow-up queries for the next round.

The core comes in five parts:

- `deep_research.dfy` (module `DeepResearch`): the ledger variant of the
  loop, `deepResearch`. It keeps a union-only set of answered plan
  questions and a knowledge-gap ledger. Gap analysis and fact extraction
  run under their own conditions, and a gap pointer steers the follow-up
  queries.
- `cli_agent.dfy` (module `CliAgent`): the older terminal variant,
  `executeAgent`. Every reflection overwrites its answered and unanswered
  lists. Follow-up queries come straight from the reflection.
- `citations.dfy` (module `Citations`): `insertCitationMarkers` splices
  markdown link markers into an answer. `getCitations` reads citation
  records out of a grounded model response.
- `cli_args.dfy` (module `CliArgs`): the terminal front end's argument
  scanner, `parseArgs`.
- `step_sequence.dfy` (module `StepSequence`): the integration test's own
  helpers over a list of steps, `getRoundNumber` and `isFollowUpQuery`
  (test/follow-up-integration.test.ts:49-69), with the values the test
  asserts, and the progress percentage the test computes. The terminal UI
  does not use the two helpers: it decides a follow-up from its iteration
  count (src/cli/app.tsx:258) and derives no round number from the step
  list. Only the percentage also appears in the UI, with the same
  expression (src/cli/components/reflection.tsx:28).
- `research_types.dfy` (module `ResearchTypes`) holds what both loops
  share: search results and their ids, reflections, the answer request
  and its source map, the relevant-results filter and the unanswered-index
  list.

**How the collaborators are modelled.** The reasoning calls, the search
provider and the id generator are oracles: arrow-typed fields of a
`Collaborators` value.

- Search answers per round and query.
- The id generator answers per round and position in the batch.

Every round returns the list of calls it made, in order. That lets the
contracts state which collaborator was called, with what, and which was
not called at all.

**How the loops are modelled.**

- The session state (the locals of `deepResearch`, and `AgentState` plus
  locals for `executeAgent`) is a class whose methods update its fields.
- One loop iteration is `Round`. The whole `while` loop is `Run`.
- The reflect phase of a round is specified by a pure predicate over
  before- and after-snapshots of the state: `Reflected` and `Digested` in
  `DeepResearch`, `Absorbed` in `CliAgent`. `Round` is proved against that
  predicate, and the lemmas beside it state the source's rules.

**Behaviour of the code worth noting:**

- `currentGapIndex` is not always -1 or a valid index into the
  ledger. The ledger is replaced wholesale while the index is
  kept when the status is `continuing` or `complete`, so the index can go
  stale. The Reflect call guards it, and so does `CurrentGapDescription`.
- A gap analysis naming a gap absent from the updated ledger is not an
  error. The code sets the pointer to -1 (`FindGapIndex`,
  `GapPointerRule`).
- An insufficient reflection with no follow-up queries is fatal only in
  `executeAgent` (`MissingFollowUps`). The ledger variant asks a
  collaborator for follow-ups instead and never checks.
- The unanswered list is the complement of the answered set only in the
  ledger variant. `executeAgent` overwrites both lists with whatever the
  reflection reports, so its answered list can shrink
  (`CliAgent.AnsweredCanShrink`).
- The search call in the ledger variant does not match `executeSearches`. The loop sends
  one `query` where `executeSearches` requires a `queries` array, and
  `executeSearches` answers with one array per query. The model's search
  oracle stands for the intended contract (see "## Left out").
- With a round budget of 0 or less, neither loop body runs and both
  functions return `undefined` (`NoAnswer`). A null reflection aborts the
  ledger variant (`Failed(ReflectionNull)`).

## Model

| member | source | states |
|---|---|---|
| ResearchTypes.TitleOrNull | src/inngest/functions/deep-research.ts:147 | a missing or empty title becomes null, any other title is kept |
| ResearchTypes.SourcesMap | src/inngest/functions/deep-research.ts:144-149 | the citation map has exactly the ids of all accumulated results as keys |
| ResearchTypes.SourcesMapLastWins | src/inngest/functions/deep-research.ts:144-149 | each id resolves to the url and title-or-null of its last result, since the Map constructor lets later entries overwrite earlier ones |
| ResearchTypes.AnswerFor | src/inngest/functions/deep-research.ts:137-157 | the answer is written from facts exactly when some fact was extracted, with a source map over all accumulated results; otherwise it is written from all accumulated results |
| ResearchTypes.Stamped | src/cli/agent.ts:100-103 | each result of the batch keeps its place and gets the id drawn for its position |
| ResearchTypes.Relevant | src/cli/agent.ts:175-177 | a result is kept exactly when it is in the batch and its id is among the reported ids; nothing is added |
| ResearchTypes.RelevantSplit | src/cli/agent.ts:175-177 | the filter keeps batch order: a split batch is filtered part by part |
| ResearchTypes.RelevantSingle | src/cli/agent.ts:175-177 | one result is kept exactly when its id was reported |
| ResearchTypes.Unanswered | src/inngest/functions/deep-research.ts:69-72 | the unanswered list holds exactly the plan indices not answered, in ascending order |
| ResearchTypes.AllIndices | src/cli/agent.ts:63-65 | with nothing answered, the unanswered list is every plan index 0, 1, …, n-1 |
| DeepResearch.IsDeepResearchQuery | src/inngest/functions/deep-research.ts:396-401 | an invocation is valid exactly when both the research topic and the current date are present and non-empty |
| DeepResearch.MaxRoundsOf | src/inngest/functions/deep-research.ts:47 | a missing budget becomes 10; a given budget, including 0 or a negative one, is kept as it is |
| DeepResearch.FindGapIndex | src/inngest/functions/deep-research.ts:359-362 | the first gap whose description is the target, or -1 exactly when no gap matches or there is no target |
| DeepResearch.GetCurrentGapPreviousQueries | src/inngest/functions/deep-research.ts:384-394 | nothing for a null or empty target or an unmatched one, otherwise the previous queries of the first matching gap |
| DeepResearch.CurrentGapDescription | src/inngest/functions/deep-research.ts:187-191 | the gap description handed to Reflect is present exactly when the pointer indexes the ledger, and is then that gap's description |
| DeepResearch.DigestCalls | src/inngest/functions/deep-research.ts:224-352 | after a reflection come at most two fork-join calls, then one final call: an answer exactly when the round finishes, follow-up generation exactly when it continues |
| DeepResearch.GapAnalysisOnlyWhenInsufficient | src/inngest/functions/deep-research.ts:224-236 | gap analysis is called exactly when the reflection is insufficient, and then with the current ledger, pointer, reflection and round |
| DeepResearch.ExtractionOnlyOverRelevant | src/inngest/functions/deep-research.ts:224-266 | fact extraction is called exactly when relevant ids were reported; it sees only this batch's results with those ids; its facts are appended; with no ids the facts are unchanged |
| DeepResearch.AnsweredOnlyGrows | src/inngest/functions/deep-research.ts:215-218 | over a round the answered set only grows, by exactly the reported indices, and the unanswered list only loses entries |
| DeepResearch.OneReflectPerRound | src/inngest/functions/deep-research.ts:177-197 | a round's first reflect-phase call is Reflect and no later call of the phase is |
| DeepResearch.GapPointerRule | src/inngest/functions/deep-research.ts:355-363 | the gap pointer moves only on a continued round whose analysis reports a new or switched gap; it then points at a gap of the updated ledger carrying the reported description, or is -1 |
| DeepResearch.Session.constructor | src/inngest/functions/deep-research.ts:62-83 | a session starts in round 1 with the initial queries, the full budget, no results, facts or answers, an empty ledger and pointer -1 |
| DeepResearch.Session.Ingest | src/inngest/functions/deep-research.ts:88-112 | every query is searched in order, and the batch, with fresh ids, is appended to all results |
| DeepResearch.FreshInOrder | src/inngest/functions/deep-research.ts:215-218 | what adding indices to a Set appends: exactly the indices not already present, each at its first occurrence |
| DeepResearch.FreshNoDuplicates | src/inngest/functions/deep-research.ts:215-218 | adding to a duplicate-free Set keeps it duplicate-free |
| DeepResearch.FreshUnion | src/inngest/functions/deep-research.ts:215-218 | as a set, the Set after the additions is the union of the old one and the added indices |
| DeepResearch.FreshInOrderExample | src/inngest/functions/deep-research.ts:215-218 | adding 2, 1, 2 to an empty Set gives 2, 1; adding 2, 1, 3 to {1} appends 2, 3 |
| DeepResearch.Session.MarkAnswered | src/inngest/functions/deep-research.ts:215-218 | the answered list becomes the old list followed by the new indices in first-occurrence order, as a JavaScript Set iterates; it stays duplicate-free and its set is the union |
| DeepResearch.Session.Digest | src/inngest/functions/deep-research.ts:215-378 | everything after a non-null reflection satisfies `Digested`: new answered indices appended in first-report order, conditional gap analysis and extraction, stop exactly on `isSufficient` or no continuation, else follow-ups with the fallback target, gap pointer and round + 1 |
| DeepResearch.Session.ReflectOnBatch | src/inngest/functions/deep-research.ts:177-197 | Reflect gets this batch, the answered list, its complement and the current gap; a null reflection fails the session with nothing changed; otherwise the reflection is digested |
| DeepResearch.Session.Round | src/inngest/functions/deep-research.ts:85-379 | one iteration: the budget drops by exactly 1 and `currentRound + maxRounds` stays constant at the loop head; at 0 the answer is written without reflecting and nothing else changes; otherwise the reflect phase follows |
| DeepResearch.Run | src/inngest/functions/deep-research.ts:41-381 | an invalid invocation is rejected before any call; query generation comes first; the loop runs at most the budget, never when it is not positive; a positive budget ends in an answer or a null-reflection failure, and a budget of 1 answers without reflecting |
| CliAgent.AbsorbedCalls | src/cli/agent.ts:150-199 | a round that reflected calls Reflect once, first; fact extraction happens exactly when relevant ids were reported, over this batch's results with those ids, and its facts are appended |
| CliAgent.AnsweredCanShrink | src/cli/agent.ts:161-163 | overwriting the lists is not monotone: a round can move question 0 from answered back to unanswered |
| CliAgent.Agent.constructor | src/cli/agent.ts:33-67 | the agent starts in round 1 with the full budget, no answers, and every plan index unanswered |
| CliAgent.Agent.Ingest | src/cli/agent.ts:97-103 | every query is searched in order, and the batch, with fresh ids, is appended to the state's results |
| CliAgent.Agent.Absorb | src/cli/agent.ts:150-262 | the reflect phase satisfies `Absorbed`: both lists overwritten, extraction over the relevant part of this batch, an answer on sufficiency, an error without follow-ups, else the follow-ups are the next queries and the round goes up by 1 |
| CliAgent.Agent.Round | src/cli/agent.ts:68-263 | one iteration: the budget drops by exactly 1; at 0 the answer is written without reflecting and nothing else changes; otherwise the reflect phase follows |
| CliAgent.Run | src/cli/agent.ts:24-264 | query generation comes first; the loop runs at most the budget, never when it is not positive (then the result is undefined); every Reflect call is before the last round; a budget of 1 answers without reflecting |
| Citations.SegmentMarker | src/utils.ts:80 | a segment's marker is its label and short url in markdown link form, five characters longer than the two |
| Citations.MarkerAppend | src/utils.ts:79-81 | a citation's marker is the concatenation of its segments' markers in order; no segments give the empty marker |
| Citations.SortByEnd | src/utils.ts:63-68 | the processing order is a permutation of the citations by descending end index, ties by descending start index |
| Citations.MarkerOf | src/utils.ts:77-81 | the inner loop builds exactly the citation's marker |
| Citations.SpliceStep | src/utils.ts:84-87 | cutting the text built so far at the next citation's end index and inserting its marker gives the text with that citation added |
| Citations.InsertCitationMarkers | src/utils.ts:55-91 | the output is the reference text with every marker at its citation's original end index; its length is the text's plus all markers'; no citations leave the text unchanged |
| Citations.MarkersAtPosition | src/utils.ts:63-88 | at each position the output holds the markers of exactly the citations ending there, by ascending start index |
| Citations.BuildLength | src/utils.ts:72-88 | inserting markers adds exactly their total length |
| Citations.JoinSplit | src/utils.ts:165-168 | joining the parts of a split on the same delimiter gives the string back |
| Citations.Label | src/utils.ts:165-169 | a title with a `.` loses everything from its last `.` on; a title without keeps it all |
| Citations.SegmentsResolved | src/utils.ts:151-176 | every segment comes from an indexed chunk with `web`, links the non-empty resolved url of its uri, and carries the label of its title |
| Citations.SegmentsAppend | src/utils.ts:151-176 | segments keep the order of the chunk indices: a split index list is handled part by part |
| Citations.SegmentsSingle | src/utils.ts:151-176 | one chunk index gives its segment exactly when its chunk exists, has `web`, and its uri resolves to a non-empty url |
| Citations.SegmentsAllResolved | src/utils.ts:151-176 | when every chunk index resolves, there is one segment per index, in index order |
| Citations.KeptSupports | src/utils.ts:125-139 | a support is kept exactly when it has a segment with an end index |
| Citations.OneCitationPerKeptSupport | src/utils.ts:125-185 | one citation per kept support, in support order, even when its segments are empty |
| Citations.GetCitations | src/utils.ts:105-189 | no response, no candidates, no first candidate, or no metadata or supports give no citations; otherwise the citations of the first candidate's supports |
| Citations.OnlyFirstCandidate | src/utils.ts:116 | candidates after the first are never consulted |
| CliArgs.ParseInt | src/cli/index.tsx:15 | a number results exactly when a digit comes first or right after a single sign; only a leading minus gives a value below zero |
| CliArgs.DigitPrefixLength | src/cli/index.tsx:15 | the length of the leading run of decimal digits |
| CliArgs.ParseIntDigitsThen | src/cli/index.tsx:15 | digits followed by anything not starting with a digit parse to the digits' value |
| CliArgs.ParseArgs | src/cli/index.tsx:6-47 | the scanner's result is the left-to-right scan of the arguments after the first two, from the default of 10 |
| CliArgs.NoFlagsDefault | src/cli/index.tsx:8-46 | with no recognised flag the result is 10 rounds |
| CliArgs.ScanSkipsPlain | src/cli/index.tsx:39-43 | arguments that are not options are ignored |
| CliArgs.ScanOutcomes | src/cli/index.tsx:10-46 | the scan ends with a positive round count, a help exit with code 0, or an error exit with code 1; a count other than the default was the value of some `--max-rounds` |
| CliArgs.ScanNoValueKeeps | src/cli/index.tsx:10-46 | with no `--max-rounds` carrying a non-empty value, a scan that ends with options keeps the default |
| CliArgs.ScanLastValueWins | src/cli/index.tsx:12-23 | a scan that ends with options has the parsed value after the last `--max-rounds` with a non-empty value |
| CliArgs.ScanBadValueExits | src/cli/index.tsx:12-24 | the first `--max-rounds` whose non-empty value is not a positive integer makes the scan exit with 1, unless a help flag comes first |
| CliArgs.ParseIntExamples | src/cli/index.tsx:15 | `parseInt` on "5", "0", "3abc", "abc" and "--help" |
| CliArgs.ParseExamplesValues | src/cli/index.tsx:12-17 | no arguments give 10; `--max-rounds 5` gives 5 |
| CliArgs.ParseExamplesOverride | src/cli/index.tsx:12-17 | a later `--max-rounds` overrides an earlier one |
| CliArgs.ParseExamplesLenient | src/cli/index.tsx:15-17 | `--max-rounds 3abc` gives 3 |
| CliArgs.ParseExamplesSkipped | src/cli/index.tsx:14-23 | an empty value is consumed and skipped; `-v` is ignored |
| CliArgs.ParseExamplesBadValue | src/cli/index.tsx:15-23 | a value that is not a positive integer exits with 1, even `--help` as a value |
| CliArgs.ParseExamplesExits | src/cli/index.tsx:24-43 | a trailing `--max-rounds` and an unknown `--` option exit with 1; `-h` exits with 0 before later arguments |
| StepSequence.Prefix | test/follow-up-integration.test.ts:52 | slicing a prefix clamps to the list's length |
| StepSequence.RoundNumber | test/follow-up-integration.test.ts:49-55 | the value is the test's definition, one more than the reflections up to and including the index; the contract bounds it to at least 1 and at most one more than the number of steps up to and including the index |
| StepSequence.RoundNumberBounds | test/follow-up-integration.test.ts:49-55 | the round number is at least 1, at most one more than the steps counted, and never decreases along the list |
| StepSequence.IsFollowUpQuery | test/follow-up-integration.test.ts:57-69 | a step is a follow-up exactly when an insufficient reflection comes strictly before it |
| StepSequence.FollowUpMonotone | test/follow-up-integration.test.ts:57-69 | once a step is a follow-up, every later step is too |
| StepSequence.OnlySufficientNoFollowUp | test/follow-up-integration.test.ts:80-110 | sufficient reflections never make a step a follow-up |
| StepSequence.TestValues | test/follow-up-integration.test.ts:71-110 | the asserted values: not a follow-up and round 1 at index 1, a follow-up and round 2 at index 5, and no follow-up after a sufficient reflection |
| StepSequence.Progress | test/follow-up-integration.test.ts:117-120 | the percentage is 100·answered/plan rounded half up, 0 for an empty plan, and within 0..100 when answered ≤ plan |
| StepSequence.ProgressExample | test/follow-up-integration.test.ts:113-122 | 2 of 4 answered is 50 percent |

## Left out

- Publishing, logging, the UI event emitter and the Ink/React screens: presentation only.
- Durable replay of the Inngest function is not modelled. The model runs the handler once, with `step.run`/`step.invoke` as plain calls. Under replay the handler runs again and memoized step results are reused. But the result ids (`nanoid(4)`) are drawn outside any step, so a replayed round can stamp new ids while the memoized reflection still names the old ones, and extraction then finds none of them. The model's `nanoid(round, k)` draws the same ids every time, so it hides this.
- The reasoning collaborators (`b.*`), search and the `nanoid` id generator are oracles. The date handed to the ledger variant's first query generation is the event's `current_date`, and it is modelled (`GenerateQuery(topic, date)`). Every other call in both variants receives `new Date().toLocaleDateString()` (for example src/inngest/functions/deep-research.ts:183 and src/cli/agent.ts:122). That clock-derived date is not modelled, and the model has no clock. `processFootnotes` is not part of this model; the answer is represented by the request handed to the answer writer.
- A collaborator that rejects (network failure, thrown error) is not modelled; the oracles are total. The one rejection the core raises itself in the ledger variant, a null reflection, is modelled.
- Concurrency: the search fan-out and the gap-analysis/extraction fork-join are modelled as sequential, all-or-nothing steps in a fixed order. The per-query status record of `executeAgent` is left out.
- DeepResearch.Run: does not restate each round's effect on the answered set over the whole session; that is stated per round by `Session.Round` with `AnsweredOnlyGrows`.
- DeepResearch.Run: the round budget is an integer. The event's `maxRounds` is any JavaScript number. A fractional budget such as 2.5 still runs its rounds while it stays above zero (at 2.5, 1.5 and 0.5, so three rounds), and each round reflects. A sufficient reflection, or a gap analysis that stops research, still ends in an answer. Only the out-of-rounds answer is lost, because the budget never equals 0 exactly; the result is undefined only when every round continues. NaN runs no round. Neither case is modelled.
- DeepResearch.Session.Ingest: the search oracle stands for the intended per-query search, one list of results per query. As written, the loop (src/inngest/functions/deep-research.ts:90-95) invokes `executeSearches` with `data: { query }`, but `executeSearches` (src/inngest/functions/execute-searches.ts:22-23) throws unless `event.data.queries` is an array, so the first search of every round would reject. Even with the key corrected, `executeSearches` (src/inngest/functions/execute-searches.ts:29-59) returns one array of results per query, so the `.flat()` at deep-research.ts:98 leaves arrays where results are expected, and line 102 stamps ids onto those arrays. DeepResearch.Run's promise that a positive budget ends in an answer or a failure therefore describes the intended program, not the call as written.
- DeepResearch.Session.Round: search is keyed by round and query, so two identical queries in one round get the same answer.
- CliAgent.Run: states no monotonicity of the answered list, since it does not hold (`AnsweredCanShrink`).
- CliArgs.ParseArgs: `Number.parseInt` is modelled for an optional sign followed by decimal digits and anything after them; leading whitespace, other radix prefixes and very large numbers are not.
- Citations.InsertCitationMarkers: a `char` stands for one UTF-16 code unit, the unit JavaScript's `length` and `slice` count. Text with characters outside the Basic Multilingual Plane (surrogate pairs) is not modelled. Dafny's `char` is a Unicode scalar value, so on such text an end index would land at a different place.
- Citations.InsertCitationMarkers: requires every end index to lie within the text; JavaScript's clamping of out-of-range and negative `slice` indices is not modelled.
- Citations.SortByEnd: the sort is modelled as a stable insertion sort; stability itself is not stated, and the order of citations equal in both indices is not proved to match the engine's.
- Citations.GetCitations: the resolved-url lookup is one map (the Map/Record split is not modelled), and the `try`/`catch` around a segment is not modelled since nothing in the modelled body throws.
- StepSequence.Progress: uses exact integer rounding, half up; the floating-point `Math.round` can differ from it at ratios that are not exactly representable.
- StepSequence: only the step kind and a reflection's sufficiency are kept; negative step indices are not modelled.
- `requireEnvironment` reads the process environment and is left out.
