# EQ-Bench benchmark drivers in Dafny

This project models the two benchmark drivers of EQ-Bench:
`benchmarks/eq_bench.py` (the EQ-Bench emotional-intelligence test, versions
v1, v2 and v3) and `benchmarks/creative_writing_bench.py` (the judged
creative-writing test). It covers the bookkeeping and text handling around
the model calls:

- the run key (`generate_run_index`, `format_include_exclude_string`);
- the question file name and the version switch;
- the nested results store
  `results[run_index]['iterations'][str(run_iter)][field][item_id]`,
  its completion predicate and its writes;
- the retry loop with its temperature schedule;
- the clean-up of v3 replies and v3 scoring;
- the resumable `run` loops over iterations and items, with the persisted
  snapshots and the creative-writing progress bar.

## Modules

| module | what it holds |
|---|---|
| `Wrappers` | `Option` and `Attempt` (a call that raised or returned a value) |
| `Values` | JSON values as Python's `json` module produces them, and Python truthiness |
| `Text` | `"sep".join`, `find`/`rfind`, `strip`, `startswith`/`endswith` and `str(n)` for naturals |
| `RunIndex` | the component list joined with `"--"`, with `None` written as `""` |
| `ResultsStore` | the nested store, the completion test, item writes and list appends, the stand-in for `initialize_results`, and the list of pending (iteration, item) pairs that a resumed run processes |
| `Elicitation` | the bounded retry loop that `process_v3_prompt` and `process_question_v1_v2` share |
| `V3Response` | fence and brace-span stripping of v3 replies, and `parse_v3_answers` |
| `Scoring` | `calculate_v3_score`, the v3 branch of `calculate_question_score`, and the parseability threshold of `print_results` |
| `EqBenchmark` | the EQ-Bench pure parts: version, file name, run key, template, `parse_and_score`, the two store writes, and one retry attempt of each kind |
| `EqBenchmarkRun` | the class `EqBench`, whose methods update the store, the inference log, the saved snapshots and the backend flag; and the specification functions its `run` is proved against |
| `CreativeWriting` | the creative-writing pure parts: include/exclude descriptor, run key, template |
| `CreativeWritingRun` | the class `CreativeWritingBench`, with `store_results`, `process_prompt`, `is_prompt_completed` and the progress-counting `run` |

## How the effects are modelled

- **Code outside the two files.** These calls are opaque to the model:
  `run_query`, `json.loads`, `parse_answers(_de)`, `calculate_score(_fullscale)`,
  `remove_revision_instructions`, `float()` on a string, and
  `process_writing_prompt`. They are function-typed parameters.
  - `run_query` receives the number of calls made before it, so a backend
    can answer differently on each call.
  - `run_query`, `parse_answers(_de)` and `calculate_score(_fullscale)` may
    raise: an exception is the `Raised` value of `Attempt`.
  - For `json.loads` and `float()`, `None` stands for the one exception
    the model knows of: `JSONDecodeError` and `ValueError` respectively.
  - `remove_revision_instructions` and `process_writing_prompt` never raise
    in the model.
- **Persistence.** `save_results` and `safe_dump` append a snapshot of the
  whole store to `saved`, so the order and number of saves are part of
  every contract.
- **Run results.** Each `run` is proved against a specification function:
  `RunPairs` applies the one-item step, in order, to the pending
  (iteration, id) pairs of the loaded store. `Pending` lists those pairs:
  iterations `1..n`, items in file order, skipping completed ones.

Three behaviours of the code that a reader of its documentation may not expect:

- **No retry for a malformed v3 reply.** `parse_v3_answers` swallows
  decode errors (eq_bench.py:165-170). A malformed v3 reply is therefore
  stored as `null` and counts as a success; it is not retried.
- **v3 questions never count as completed.** The completion test looks at
  `individual_scores`, which `store_v3_results` never writes
  (eq_bench.py:101-104, 172-182). A resumed v3 run therefore processes every
  question again and appends further answers.
- **Writes do not save on their own.** Neither `store_results` saves by
  itself. In EQ-Bench, `run` saves after each processed question. In
  creative writing, the store is saved only after a prompt with truthy
  scores, and once at the end of `run`.

## Model

| member | source | states |
|---|---|---|
| EqBenchmark.DetermineVersion | benchmarks/eq_bench.py:18-24 | `--v1` selects v1 whatever `--v3` says; v3 only when `--v3` is set without `--v1`; v2 otherwise |
| EqBenchmark.QuestionsFilenameSpec | benchmarks/eq_bench.py:49-59 | v1 and v3 use their fixed files; v2 uses the 171-question file, with `_<lang>` inserted before the extension for any language other than `en` |
| EqBenchmark.IterationTemplate | benchmarks/eq_bench.py:36-42 | the template has exactly the four fields `respondent_answers`, `individual_scores`, `individual_scores_fullscale` and `raw_inference`, each an empty map |
| ResultsStore.Template | benchmarks/eq_bench.py:36-42 | a template has exactly the listed fields, each mapped to an empty map |
| EqBenchmark.RunKeyComponents | benchmarks/eq_bench.py:62-73 | the EQ-Bench key is built from exactly ten components |
| RunIndex.Normalize | benchmarks/eq_bench.py:74 | each component keeps its position; `None` becomes `""` and a string stays itself |
| RunIndex.RunKeyOneComponent | benchmarks/eq_bench.py:74-75 | changing one component changes the key exactly when its string (`""` for `None`) changes, so equal component lists give equal keys |
| RunIndex.RunKeyCollidesAcrossComponents | benchmarks/eq_bench.py:75 | joining with `"--"` is not injective: `m-`/`lora` and `m`/`-lora` give the same key |
| EqBenchmark.RunIndexStartsWithRunIdAndVersion | benchmarks/eq_bench.py:61-75 | the key begins with the run id (`""` for `None`), `"--"`, the version name and `"--"` |
| EqBenchmark.RunIndexSeparatesVersionsAndLanguages | benchmarks/eq_bench.py:61-75 | two configurations with the same run parameters share a key iff they have the same version and the same language, whether one or both of these differ |
| EqBenchmark.RunIndexSeparatesVersions | benchmarks/eq_bench.py:61-75 | configurations of different versions never share a key: the two-character version names sit at the same place after the run id |
| EqBenchmark.VersionNameInjective | benchmarks/eq_bench.py:18-24 | the three version names are distinct |
| Text.JoinInjectiveInOnePart | benchmarks/eq_bench.py:75 | for a fixed separator and fixed other parts, the join is equal iff the one varying part is equal |
| Text.JoinEmpty | benchmarks/creative_writing_bench.py:55-56 | a join with a non-empty separator is empty iff the list is empty or is the single empty string |
| Text.NatToStringInjective | benchmarks/eq_bench.py:103 | `str(run_iter)` keys of different iterations differ |
| Text.ParseNatToString | benchmarks/eq_bench.py:103 | reading back `str(n)` gives `n` |
| ResultsStore.IsCompleted | benchmarks/eq_bench.py:101-104 | completed iff the run exists, `str(run_iter)` is one of its iterations and the id is in that iteration's `individual_scores` |
| EqBenchmarkRun.EqBench.IsQuestionCompleted | benchmarks/eq_bench.py:101-104 | true iff the question is completed in the current store; it reads the store and nothing else |
| ResultsStore.SetItemSpec | benchmarks/eq_bench.py:294-300 | after `iter_results[field][id] = v`, that record is `v`, every other record of every run is unchanged, and no run, iteration or field appears or disappears |
| ResultsStore.AppendItemSpec | benchmarks/eq_bench.py:175-181 | an append creates an empty list when the id is absent and then adds exactly one element at its end; nothing else changes |
| ResultsStore.EnsureIterationsSpec | benchmarks/eq_bench.py:80 | `initialize_results` makes sure iterations `1..n` exist with the template fields, and no record already stored changes |
| ResultsStore.EnsureIterationsIdle | benchmarks/eq_bench.py:80 | once the run and its iterations exist, `initialize_results` leaves the store as it is, so calling it in every iteration is harmless |
| ResultsStore.PendingMembership | benchmarks/eq_bench.py:78-87 | a pair is pending iff its iteration is in `1..n`, its id is one of the items and it is not completed |
| ResultsStore.PendingFreshRun | benchmarks/eq_bench.py:78-87 | on a store with nothing for the run, all `n * items` pairs are pending |
| ResultsStore.PendingSameDone | benchmarks/eq_bench.py:84 | what is pending depends only on completion |
| ResultsStore.PendingPrefix | benchmarks/eq_bench.py:78-83 | the pending list of fewer iterations is a prefix of that of more |
| ResultsStore.NamedAt | benchmarks/eq_bench.py:83 | with distinct ids, the id of the k-th item names that item |
| Elicitation.ElicitBounds | benchmarks/eq_bench.py:130-160 | the retry loop makes at most `r` attempts, and none when `r <= 0` |
| Elicitation.ElicitStopsAtFirstSuccess | benchmarks/eq_bench.py:135-154 | on success the last attempt returned and every earlier attempt raised: the loop stops right after the first attempt that does not raise |
| Elicitation.ElicitExhausted | benchmarks/eq_bench.py:155-163 | on failure exactly `r` attempts were made and each one raised |
| Elicitation.ElicitAllRaise | benchmarks/eq_bench.py:218-237 | when every attempt raises, the loop makes exactly `r` attempts and fails |
| Elicitation.ElicitFirstSuccess | benchmarks/eq_bench.py:218-228 | when attempt `j < r` is the first that does not raise, the loop makes `j + 1` attempts and succeeds with its value |
| EqBenchmark.Requests | benchmarks/eq_bench.py:134-158 | the k-th inference call (counted from 0) gets temperature 0.01 + 0.15·k and the version's token limit |
| EqBenchmark.RequestsExtend | benchmarks/eq_bench.py:155-158 | one more failed attempt appends one call at the next temperature |
| EqBenchmark.V3RetriesOnlyInferenceFailures | benchmarks/eq_bench.py:135-160 | the v3 loop fails iff all of the first `r` inference calls raise: clean-up, decoding and storing never cause a retry |
| Text.Find | benchmarks/eq_bench.py:147 | `find` gives -1 iff the character is absent, and otherwise its first position |
| Text.RFind | benchmarks/eq_bench.py:148 | `rfind` gives -1 iff the character is absent, and otherwise its last position |
| Text.LStrip | benchmarks/eq_bench.py:144 | the result is a suffix; everything removed is whitespace, and the result does not start with whitespace |
| Text.RStrip | benchmarks/eq_bench.py:146 | the result is a prefix; everything removed is whitespace, and the result does not end with whitespace |
| Text.StripIdempotent | benchmarks/eq_bench.py:144-146 | stripping twice is stripping once |
| Text.StripSlice | benchmarks/eq_bench.py:144 | `strip()` keeps a contiguous slice of its input, removes only whitespace around it, and leaves neither end of the result on whitespace |
| V3Response.DropOpeningFenceSpec | benchmarks/eq_bench.py:143-144 | with a leading ```` ```json ````, the result is a contiguous slice of the text after those 7 characters, everything else dropped is whitespace, and neither end of the result is whitespace; a text without the fence is unchanged |
| V3Response.DropClosingFenceSpec | benchmarks/eq_bench.py:145-146 | with a trailing ```` ``` ````, the result is a contiguous slice of the text before those 3 characters, everything else dropped is whitespace, and neither end of the result is whitespace; a text without the fence is unchanged |
| V3Response.CleanV3ReplyBraces | benchmarks/eq_bench.py:143-150 | after the fences are removed, a text with a `{` before its last `}` is cleaned to the span from the first `{` to the last `}`, so it opens with `{` and closes with `}`; a text lacking either brace comes out as the fence removal left it |
| V3Response.BraceSpanBothPresent | benchmarks/eq_bench.py:147-150 | with both braces present and the first `{` before the last `}`, the result is the slice from that `{` to that `}` inclusive |
| V3Response.BraceSpanReversed | benchmarks/eq_bench.py:149-150 | when the last `}` comes before the first `{`, the Python slice is empty |
| V3Response.BraceSpanAbsent | benchmarks/eq_bench.py:149 | without a `{` or without a `}`, the text is left as it is |
| V3Response.BraceSpanIdempotent | benchmarks/eq_bench.py:147-150 | cutting to the brace span twice is cutting once |
| V3Response.CleanFencedReplyExample | benchmarks/eq_bench.py:143-150 | a fenced reply with a preamble is cleaned to exactly its JSON object |
| V3Response.ParseV3Answers | benchmarks/eq_bench.py:165-170 | a decode failure gives `null`, never an exception; otherwise the result is the decoded value |
| EqBenchmark.StoreV3Spec | benchmarks/eq_bench.py:172-181 | `store_v3_results` appends exactly one entry to the question's answer list and one to its raw-inference list; every other record, including all of `individual_scores`, is unchanged |
| EqBenchmarkRun.V3StoredFacts | benchmarks/eq_bench.py:152-153 | a stored v3 reply appends the decoded answers (`null` if the cleaned text does not decode) and the cleaned text, changes nothing else and is saved at once |
| EqBenchmarkRun.V3PromptStepFacts | benchmarks/eq_bench.py:130-163 | one v3 prompt makes the loop's inference calls; a success adds one answer and one raw reply and one save; a failure leaves the store and the saves untouched |
| EqBenchmarkRun.MalformedV3ReplyIsStoredNotRetried | benchmarks/eq_bench.py:152-154 | a first reply that does not decode causes exactly one call, appends `null` and the cleaned text, and saves: it is not retried |
| EqBenchmarkRun.V3PromptsFacts | benchmarks/eq_bench.py:124-126 | the dialogue prompts of a v3 question touch only its two lists, and each save adds exactly one element to each |
| EqBenchmarkRun.EqBench.StoreV3Results | benchmarks/eq_bench.py:172-182 | the store becomes `StoreV3` of the old store and one snapshot is saved |
| EqBenchmarkRun.EqBench.ProcessV3Prompt | benchmarks/eq_bench.py:130-163 | the new state is the v3 prompt step of the old state, and the returned success flag is whether the retry loop succeeded |
| Scoring.CalculateV3Score | benchmarks/eq_bench.py:184-196 | the loop computes `V3Score`: `None` for a falsy answer, otherwise 10 − 0.7477 × the sum of the absolute differences over the reference's `items()`, one per distinct key with its last value, restricted to the keys the answer holds |
| Scoring.V3ScoreAbsence | benchmarks/eq_bench.py:185-186 | the score is `None` iff the answer is falsy |
| Scoring.V3ScoreAtMostTen | benchmarks/eq_bench.py:188-196 | a v3 score is never above 10 |
| Scoring.TallyNonNegative | benchmarks/eq_bench.py:188-191 | the difference tally is never negative |
| Scoring.TallyOverPresentKeys | benchmarks/eq_bench.py:189-191 | reference keys missing from the answer contribute nothing to the tally |
| Scoring.TallyRaisedPrefix | benchmarks/eq_bench.py:189-191 | a `float()` failure on some key makes the whole score raise |
| Scoring.V3ScoreWorkedExample | benchmarks/eq_bench.py:184-196 | reference {a: 5, b: 3} against answer {a: 4, b: 3} scores 9.2523 |
| Scoring.V3ScoreRepeatedReferenceKey | benchmarks/eq_bench.py:189 | a reference read from `{"a": 1, "a": 3}` is the dict {a: 3}, so the answer {a: 3} scores 10 |
| Values.ItemsKeys | benchmarks/eq_bench.py:189 | `d.items()` holds exactly the keys that `key in d` finds |
| Values.ItemsValues | benchmarks/eq_bench.py:189 | each item's value is `d[key]`, the value of the last member with that key |
| Values.ItemsDistinct | benchmarks/eq_bench.py:189 | no key appears twice in `d.items()` |
| Values.ItemsOfDistinct | benchmarks/eq_bench.py:189 | a member list without repeated keys is its own `items()`, in the same order |
| Scoring.V3Scores | benchmarks/eq_bench.py:203 | there is one score per stored answer |
| Scoring.V3ScoresAt | benchmarks/eq_bench.py:203 | the k-th score is the score of the k-th answer |
| Scoring.SumPresentAtMost | benchmarks/eq_bench.py:204 | the sum of the present scores is at most the bound times the number of all scores |
| Scoring.QuestionScoreV3AtMostTen | benchmarks/eq_bench.py:198-204 | a v3 question score is never above 10 |
| Scoring.QuestionScoreCountsUnparseable | benchmarks/eq_bench.py:204 | unparseable answers count in the divisor: a perfect answer next to an unparseable one averages 5 |
| Scoring.ParseabilityFailed | benchmarks/eq_bench.py:317-318 | the run is flagged iff parseable < 0.8333 × number of questions; with no questions the division raises |
| Scoring.ParseabilityExamples | benchmarks/eq_bench.py:317-318 | 4 of 5 parseable is flagged; 5 of 5 and 5 of 6 are not |
| EqBenchmark.ParseAndScoreSpec | benchmarks/eq_bench.py:265-290 | a parse failure propagates; on success the parsed record holds `first_pass` and `revised`, and the scores hold two scores, followed by the two full-scale ones exactly when the full-scale reference is truthy; without `--revise` the revised scores are null |
| EqBenchmark.SetPairSpec | benchmarks/eq_bench.py:294-300 | setting two different records of a question sets both and nothing else |
| EqBenchmark.StoreV1V2Spec | benchmarks/eq_bench.py:292-300 | `store_results` sets exactly the parsed answers, the scores, the full-scale record (the `*_fullscale` scores, null where absent) and the raw reply of the question in this iteration; every other record, iteration and run is unchanged |
| EqBenchmarkRun.EqBench.StoreResults | benchmarks/eq_bench.py:292-300 | the store becomes `StoreV1V2` of the old store; nothing is saved |
| EqBenchmarkRun.V1V2StepFacts | benchmarks/eq_bench.py:210-237 | a v1/v2 question makes the loop's calls, never saves, and changes only its own records; it is completed with the winning attempt's scores on success, and on failure the store is unchanged |
| EqBenchmarkRun.EqBench.ProcessQuestionV1V2 | benchmarks/eq_bench.py:210-237 | the new state is the v1/v2 question step of the old state |
| EqBenchmarkRun.QuestionStepFacts | benchmarks/eq_bench.py:123-128 | processing a question changes only that question's records in that iteration; in v3, `individual_scores` never changes |
| EqBenchmarkRun.EqBench.ProcessQuestion | benchmarks/eq_bench.py:123-128 | the new state is the question step: the v3 prompt loop, or the v1/v2 path |
| EqBenchmarkRun.EqBench.RunInference | benchmarks/eq_bench.py:245-263 | the call gets the prompt, the temperature and the token limit (300 in v3, otherwise 600 with `--revise` and 60 without), and is appended to the inference log |
| EqBenchmarkRun.EqBench.SaveResults | benchmarks/eq_bench.py:320-321 | one snapshot of the whole store is appended to the saved log |
| EqBenchmarkRun.EqBench.InitializeResults | benchmarks/eq_bench.py:80 | the store becomes `EnsureIterations` of the old store |
| EqBenchmarkRun.InitializedPrepared | benchmarks/eq_bench.py:80 | the initialized store holds iterations `1..n` with all fields and records exactly what the loaded store records |
| EqBenchmarkRun.EqBench.VisitQuestion | benchmarks/eq_bench.py:84-97 | a completed question is skipped with no effect; any other question starts the backend, is processed and saved |
| EqBenchmarkRun.VisitStep | benchmarks/eq_bench.py:83-97 | a question reached in the loop has not been processed yet and its completion is what it was at the start; visiting it extends the pending list and the processed state by exactly that pair |
| EqBenchmarkRun.EqBench.RunIteration | benchmarks/eq_bench.py:83-97 | after one iteration, the pairs processed are those pending up to its end, and the state is what processing them gives |
| EqBenchmarkRun.EqBench.Iterate | benchmarks/eq_bench.py:78-97 | one pass of the outer loop, with `initialize_results`, keeps the loop invariant |
| EqBenchmarkRun.EqBench.RunFinished | benchmarks/eq_bench.py:77-99 | after the last iteration, the run is complete as `RanFrom` describes |
| EqBenchmarkRun.EqBench.Run | benchmarks/eq_bench.py:77-99 | the pairs processed are exactly the pending ones of the loaded store, in iteration then file order; the store, calls and saves are what processing them in that order gives; the backend was started iff there was something to do |
| EqBenchmarkRun.RunPairsOtherRuns | benchmarks/eq_bench.py:77-99 | a run changes no record of another run and keeps the store's shape |
| EqBenchmarkRun.RunPairsOtherPairs | benchmarks/eq_bench.py:84-97 | no record of a pair that was not processed changes, so completed questions are left alone |
| EqBenchmarkRun.RunPairsV3Scores | benchmarks/eq_bench.py:92-93 | a v3 run never writes `individual_scores` |
| EqBenchmarkRun.RunPairsSaves | benchmarks/eq_bench.py:97 | each processed question is followed by a save, the last save holds the final store, and inference calls only accumulate |
| EqBenchmarkRun.EqBench.constructor | benchmarks/eq_bench.py:10-13 | the version and the run key are fixed at construction; the store starts as the loaded one |
| CreativeWriting.FormatIncludeExcludeSpec | benchmarks/creative_writing_bench.py:54-57 | the descriptor is `""` iff both joined pattern lists are empty; otherwise it starts with `include(` and ends with `)` |
| CreativeWriting.RunKeyComponents | benchmarks/creative_writing_bench.py:40-50 | the creative-writing key is built from exactly nine components |
| CreativeWriting.RunIndexStartsWithRunIdAndBenchmark | benchmarks/creative_writing_bench.py:39-52 | the key begins with the run id (`""` for `None`) followed by `--creative-writing--` |
| CreativeWriting.RunIndexSeparatesFilters | benchmarks/creative_writing_bench.py:39-57 | two configurations that differ only in their patterns share a key iff their descriptors are equal |
| CreativeWriting.IterationTemplate | benchmarks/creative_writing_bench.py:28-33 | exactly three distinct fields (`individual_scores`, `test_model_response`, `judge_model_response`), each an empty map |
| CreativeWritingRun.WriteResponseSpec | benchmarks/creative_writing_bench.py:99-102 | a response write by the writing step sets that one record and nothing else |
| CreativeWritingRun.WrittenSpec | benchmarks/creative_writing_bench.py:99-107 | the writing step changes at most the test and judge responses of its own prompt and iteration, and keeps the store's shape |
| CreativeWritingRun.CreativeWritingBench.IsPromptCompleted | benchmarks/creative_writing_bench.py:113-116 | true iff the prompt id, not converted with `str`, is in that iteration's `individual_scores` of this run; it only reads the store |
| CreativeWritingRun.CreativeWritingBench.StoreResults | benchmarks/creative_writing_bench.py:126-128 | the store becomes the old store with only `individual_scores[prompt_id]` of this iteration set |
| CreativeWritingRun.PromptStepFacts | benchmarks/creative_writing_bench.py:98-111 | one writing call per prompt; the prompt is completed afterwards iff it already was or the scores are truthy; scores are stored and the store dumped only when truthy; records of other prompts and iterations are unchanged |
| CreativeWritingRun.CreativeWritingBench.ProcessPrompt | benchmarks/creative_writing_bench.py:98-111 | the new state is the prompt step of the old state |
| CreativeWritingRun.CreativeWritingBench.SaveResults | benchmarks/creative_writing_bench.py:80 | one snapshot of the whole store is appended |
| CreativeWritingRun.CreativeWritingBench.InitializeResults | benchmarks/creative_writing_bench.py:64 | the store becomes `EnsureIterations` of the old store |
| CreativeWritingRun.InitializedPrepared | benchmarks/creative_writing_bench.py:64 | the initialized store holds iterations `1..n` with the three fields and records exactly what the loaded store records |
| CreativeWritingRun.InitializedSameDone | benchmarks/creative_writing_bench.py:64-67 | `initialize_results` neither completes nor un-completes any prompt |
| CreativeWritingRun.CreativeWritingBench.VisitPrompt | benchmarks/creative_writing_bench.py:66-77 | the progress count rises by exactly one whether the prompt is skipped or processed; a completed prompt has no other effect; any other prompt starts the backend and is processed |
| CreativeWritingRun.VisitStep | benchmarks/creative_writing_bench.py:66-77 | a prompt reached in the loop has not been processed yet and its completion is what it was at the start; visiting it extends the pending list and the processed state by exactly that pair |
| CreativeWritingRun.CreativeWritingBench.RunIteration | benchmarks/creative_writing_bench.py:66-77 | after one iteration, the pending pairs up to its end have been processed and the progress count has risen by the number of prompts |
| CreativeWritingRun.CreativeWritingBench.Iterate | benchmarks/creative_writing_bench.py:62-77 | one pass of the outer loop, with `initialize_results`, keeps the loop invariant |
| CreativeWritingRun.CreativeWritingBench.RunLoops | benchmarks/creative_writing_bench.py:62-77 | after the loops, the pairs processed are exactly the pending ones of the loaded store, in order, and the progress count covers every prompt of every iteration |
| CreativeWritingRun.CreativeWritingBench.RunAsWritten | benchmarks/creative_writing_bench.py:59-60 | as written, `run` raises at its first statement: the store, the writing calls, the saves, the progress count and the backend flag are all unchanged (see Findings) |
| CreativeWritingRun.CreativeWritingBench.Run | benchmarks/creative_writing_bench.py:59-81 | `run` with the progress-bar class bound to `tqdm`: the loops as above, then one save of the final store; the bar opens at 0 and its final count is `len(prompts) × n_iterations`, which is `total_prompts` when `n_iterations ≥ 0` |
| CreativeWritingRun.RunPairsCalls | benchmarks/creative_writing_bench.py:66-76 | the writing step is called once per processed pair, in order, and for nothing else |
| CreativeWritingRun.RunPairsOtherPairs | benchmarks/creative_writing_bench.py:66-77 | no record of an unprocessed pair changes, and the store keeps its shape |
| CreativeWritingRun.RunPairsKeepsDone | benchmarks/creative_writing_bench.py:109-111 | a completed pair stays completed: a run never removes a score |
| CreativeWritingRun.ProgressAfterIsProduct | benchmarks/creative_writing_bench.py:14 | after `n` iterations over `p` prompts the bar counts `n × p` |
| CreativeWritingRun.CreativeWritingBench.ProgressIsTotal | benchmarks/creative_writing_bench.py:14 | the final count equals `total_prompts` whenever `n_iterations` is not negative |
| CreativeWritingRun.CreativeWritingBench.constructor | benchmarks/creative_writing_bench.py:11-15 | `total_prompts` is `len(prompts) × n_iterations`; the run key is fixed, and the store starts as the loaded one |

## Findings

| source | as written | input that shows it | evidently intended | confidence | as-written member | corrected member |
|---|---|---|---|---|---|---|
| benchmarks/creative_writing_bench.py:60 | line 3 is `import tqdm`, so the name `tqdm` is the package, and line 60 calls it: `run` raises `TypeError` ("module object is not callable") before any iteration, write, progress update or save | any configuration and any prompt set, including a single prompt and one iteration | `from tqdm import tqdm`, so that line 60 opens a progress bar at 0 and `run` goes on to the loops and the final save | high for the reading of lines 3 and 60; not executed | CreativeWritingRun.CreativeWritingBench.RunAsWritten | CreativeWritingRun.CreativeWritingBench.Run |

## Left out

- `print`, drawing the progress bar, `datetime` timing, `create_run_metadata`, `update_benchmark_specific_metadata` and `get_judge_params`: output and configuration plumbing with no logic. The progress bar is modelled only as a counter that `run` resets.
- Model loading (`runner.initialize_model_or_ooba`) is modelled only as a flag recording whether a backend was started; the backend itself is outside the model.
- `load_questions`, `load_prompts` and JSON file reading: file I/O. The questions and prompts are constructor arguments, in file order.
- `safe_dump` / `save_results` file writing: the model records a snapshot of the store at each save. Failures of the dump and atomic replacement are not modelled.
- `initialize_results` lives in `benchmarks/base_benchmark.py`, which is not part of this model. `ResultsStore.EnsureIterations` stands in for it: it creates the run and iterations `1..n` from the template where missing, and never overwrites a stored record.
- `run_query`, `json.loads`, `parse_answers`, `parse_answers_de`, `calculate_score`, `calculate_score_fullscale`, `remove_revision_instructions` and `process_writing_prompt`: their bodies are not in the two files. They are parameters of the model, and only some of them may raise (see "How the effects are modelled").
- EqBenchmark.PreparePrompt: `remove_revision_instructions` is modelled as never raising. In the source it runs outside the `try` (eq_bench.py:211), so an exception there would end `run`; the model does not capture that.
- V3Response.ParseV3Answers: `json.loads` is modelled as either returning a value or raising `JSONDecodeError`. Any other exception it raised would escape `parse_v3_answers` inside the v3 `try` and be retried; `EqBenchmark.V3RetriesOnlyInferenceFailures` holds only under this modelling.
- CreativeWritingRun.WrittenSpec: `process_writing_prompt` is modelled as never raising. In the source an exception from it would end `run`.
  - What `process_writing_prompt` itself writes into the store is modelled as at most the test and judge responses of its own prompt and iteration.
- `calculate_eq_bench_score` and `calculate_creative_writing_score` are not part of this model; the parseable count is an input of `Scoring.ParseabilityFailed`.
- `print_results` and `calculate_score`: only the parseability comparison is modelled.
- Float arithmetic: temperatures, scores and the thresholds 0.7477 and 0.8333 use exact reals, so no contract claims bit-exact floating-point results.
- Scoring.ToFloat: `float()` of a JSON number or numeric string is a parameter. Python's own parsing of numeric text is not modelled.
- Values: JSON objects are member lists in the order of the JSON text, repeated keys included. A lookup (`key in d`, `d[key]`, `d.get(key)`) takes the last member with the key. The scoring loop over `reference.items()` goes through `Values.Items`, which gives each key once, at its first place, with its last value, as the dict `json.loads` builds. The question and prompt dicts are passed to the constructors already as their items: the constructors require distinct ids (`ResultsStore.DistinctIds`), and the ids are strings.
- EqBenchmarkRun.EqBench.Run: requires the loaded store to be well formed (every iteration of this run holds the template fields, and in v3 the answer and raw-inference records are lists). A malformed store makes the source raise `KeyError` or `AttributeError`; that path is not modelled.
- CreativeWritingRun.CreativeWritingBench.Run: makes the same well-formedness assumption about the loaded store.
- Run keys: `None` and `""` give the same component, and joining with `"--"` is ambiguous (`RunIndex.RunKeyCollidesAcrossComponents`). The model states these collisions but does not prevent them, as the source does not.
- A v3 run never writes `individual_scores`, so `is_question_completed` never skips a v3 question. The model keeps that behaviour as written (`EqBenchmarkRun.RunPairsV3Scores`).
- Concurrency and exceptions escaping `run` are not modelled; every foreign exception is caught where the source catches it.
