# AMA memory evaluation loop, modelled in Dafny

AMA (Adaptive Memory Assessment) checks whether a memory store still
remembers a dialogue session, and repairs the store when it does not. For
each session, the loop runs these steps:

1. The store is **built** from the dialogue. A language model summarizes
   the dialogue into memory entries.
2. A question generator (the *challenger*) turns the dialogue into probe
   question/answer pairs.
3. The *evaluator* answers every question from the store. It scores each
   answer against the true one by embedding similarity; an answer passes at
   0.8 or above. It then decides on reconstruction: the store is rebuilt
   when fewer than 70% of the questions pass.
4. The *adapter* narrows the dialogue to the lines that mention keywords of
   the failed pairs. It then rebuilds the store from that text plus a block
   of corrections, and injects each complete failed pair as a correction
   entry.
5. The session is evaluated again and the result record is filled in.

The second pipeline, `SessionMemoryQA`, does the same with judgement
dictionaries. It analyses errors by type, and asks for a strategy and a
reconstruction when more than two questions fail.

The project holds one module per source file, plus shared helpers:

| file | module | models |
|---|---|---|
| `text.dfy` | `Text` | Python string operations used by the core: `strip`, `lower`, `split`/`join` on one character, `\w+` and whitespace tokens, substring search, slicing `xs[:k]` |
| `seqs.dfy` | `Seqs` | order-preserving filtering (list comprehensions with `if`) and subsequences |
| `records.dfy` | `Records` | the QA pair and the evaluated-question record shared by the components |
| `llm_reply.dfy` | `LlmReply` | how a chat reply becomes the text handed to `json.loads` (fences, `json` tag) |
| `simple_memory.dfy` | `SimpleMemory` | `SimpleMemorySystem`: the per-user entry cache, search, correction injection, build from a dialogue |
| `simple_adapter.dfy` | `SimpleAdapter` | `SimpleMemoryAdapter.update` and `.reconstruct` |
| `memory_challenger.dfy` | `MemoryChallenger` | `MemoryChallenger.generate_qa_pairs` post-processing |
| `memory_evaluator.dfy` | `MemoryEvaluator` | `MemoryEvaluator.retrieve_answer` and `.evaluate_session_memories` |
| `ama_pipeline.dfy` | `AmaPipeline` | `SessionMemoryQA.evaluate_session_memories`, `_analyze_session_errors`, `_generate_session_summary` |
| `example_session.dfy` | `ExampleSession` | `process_session` and the transcript built from a list of turns |

The store is a Dafny `class` whose `memories` map and `nextId` counter are
updated in place. Its invariant `Valid()` says that ids ascend, and so are
unique, within each user's list; ids are not compared across users. Loops
become methods proved against specification functions. Calls into language
models, embeddings and `json.loads` are function-typed parameters (oracles).
The clock reading is a `now` parameter, and `uuid4` is the `nextId` counter.

Two behaviours follow the code rather than the intent stated around it:

- When the question generator yields no pairs, the evaluator returns an
  error with an empty `summary` dictionary. `process_session` then indexes
  `summary["pass_rate"]`, which raises `KeyError`. The session therefore
  ends with `success` False and error `'pass_rate'`, instead of being
  treated as "no signal". `ExampleSession.ProcessSession` models this path
  (both for the first and the second evaluation).
- `update` can return an empty dialogue from a non-empty one. When no line
  mentions a keyword, the fallback keeps the first third of the lines (at
  least one), and that one line may be empty.
  `SimpleAdapter.EmptyFromNonEmptyDialogue` exhibits the input `"\nab"`.

## Model

| member | source | states |
|---|---|---|
| `Text.PyTake` | example/plugin/memory_challenger.py:83 | slicing `xs[:k]` gives a prefix of `xs`, of length `min(k, len)` for `k >= 0`, and drops `-k` elements from the end for negative `k` |
| `Text.StripResult` | example/plugin/memory_challenger.py:80-81 | `strip()` yields a string with no surrounding whitespace, and stripping twice is stripping once |
| `Text.StripSlice` | example/plugin/memory_challenger.py:80-81 | `strip()` removes only edge whitespace: its result is a slice `s[i..j]` with nothing but whitespace before `i` and from `j` on |
| `Text.StripKeepsAbsence` | example/plugin/memory_challenger.py:69-73 | stripping never creates an occurrence of a substring that was absent |
| `Text.Split` | example/simple_adapter.py:51 | `split("\n")` always yields at least one part |
| `Text.SplitPartsHaveNoSep` | example/simple_adapter.py:51 | no part of a split holds the separator |
| `Text.JoinSplit` | example/simple_adapter.py:51-61 | joining the parts of a split gives back the original text |
| `Text.SplitJoin` | example/simple_adapter.py:58-61 | splitting a join of separator-free parts gives back the parts |
| `Text.SplitWithoutSep` | example/simple_adapter.py:51 | a text without the separator splits into itself alone |
| `Text.SplitAfterPart` | example/simple_adapter.py:51 | splitting `p + sep + t` with `p` separator-free gives `[p]` followed by the split of `t` |
| `Text.JoinTakeIsPrefix` | example/simple_adapter.py:60-61 | joining the first `k` lines gives a prefix of the whole text |
| `Text.SplitConcat` | example/simple_adapter.py:84 | a line break between two texts separates their lines: the split of `a + "\n" + b` is the split of `a` followed by the split of `b` |
| `Text.JoinSnoc` | src/AMA_pipeline.py:74 | joining one more part appends the separator and that part |
| `Text.RunsAreRuns` | example/simple_adapter.py:43 | the `\w+` tokens of a text are non-empty and consist of word characters only |
| `Text.RunsArePieces` | example/simple_adapter.py:43 | the `\w+` tokens are exactly the non-empty pieces between non-word characters, in order: every maximal run is found, none is cut short or merged |
| `Text.ContainsInPrefix` | example/simple_memory_system.py:52 | a substring of a prefix is a substring of the whole |
| `Text.ContainsInSuffix` | example/simple_memory_system.py:52 | a substring of a suffix is a substring of the whole |
| `Text.ContainsNeedsRoom` | example/simple_adapter.py:55 | a text contains only substrings no longer than itself |
| `Text.Lower` | example/simple_adapter.py:43 | lowercasing keeps the length, leaves no upper-case letter, turns each upper-case letter into its lower-case form and keeps every other character |
| `Text.LowerIdempotent` | example/simple_adapter.py:54 | lowercasing twice is lowercasing once |
| `Seqs.Filter` | example/plugin/memory_evaluator.py:170-173 | filtering never lengthens a list |
| `Seqs.FilterCons` | example/simple_adapter.py:53-56 | filtering a list with one more element in front keeps that element exactly when it passes |
| `Seqs.FilterSnoc` | example/plugin/memory_evaluator.py:149-173 | a left-to-right filter loop adds the next element exactly when it satisfies the predicate |
| `Seqs.FilterIsSubsequence` | example/simple_adapter.py:53-56 | the kept elements are a subsequence of the input, in input order |
| `Seqs.FilterSatisfies` | example/simple_adapter.py:55 | every kept element satisfies the predicate |
| `Seqs.FilterKeepsAll` | example/simple_adapter.py:55 | every input element that satisfies the predicate is kept |
| `Seqs.FilterEmpty` | example/simple_adapter.py:59 | the filter is empty exactly when no element satisfies the predicate |
| `Seqs.FilterAllPass` | example/simple_adapter.py:53-56 | filtering a list whose every element passes returns it unchanged |
| `Seqs.FilterComplementCount` | src/AMA_pipeline.py:106-107 | an element count splits exactly into those that pass and those that fail |
| `Seqs.SubsequenceMembers` | example/simple_adapter.py:53-56 | every element of a subsequence is an element of the list |
| `Seqs.SubsequencePrefix` | example/simple_adapter.py:60-61 | a prefix of a subsequence is a subsequence |
| `LlmReply.UpTo` | example/simple_memory_system.py:174 | `split(delim)[0]` is the prefix before the first occurrence of the delimiter: no occurrence starts inside it, and one starts right after it unless it is the whole text |
| `LlmReply.FencedReply` | example/plugin/memory_challenger.py:70-73 | a reply `"```" + inner + "```" + rest` (no backtick in `inner`) becomes the stripped `inner`, with a leading `json` tag dropped |
| `LlmReply.StripFencesResult` | example/simple_memory_system.py:172-176 | a reply that opens with a fence ends up with no fence; a reply with neither a fence nor a `json` tag is left as it is |
| `LlmReply.ReplyText` | example/plugin/memory_challenger.py:69-75 | there is text to decode exactly when the call did not fail |
| `SimpleMemory.BuiltEntries` | example/simple_memory_system.py:182-196 | a successful build adds one "dialogue_summarization" entry per summarized memory, for the user, with consecutive ids, the memory's content (or ""), its timestamp (or the clock reading) as both times, and the summary; a failed one adds none |
| `SimpleMemory.CorrectionEntry` | example/simple_memory_system.py:106-125 | a correction entry is tagged with the pair's stripped question and answer, its content restates them, and it carries the given id, the user and the clock reading as both times |
| `SimpleMemory.CorrectionEntries` | example/simple_memory_system.py:105-127 | there are never more corrections than failed pairs |
| `SimpleMemory.CorrectionEntriesShape` | example/simple_memory_system.py:105-127 | every correction is tagged "correction", carries the next id, has a non-empty stripped question and answer, and its content is "Question: q. Correct Answer: a." |
| `SimpleMemory.CorrectionsFollowCompletePairs` | example/simple_memory_system.py:105-109 | corrections follow the complete pairs one for one, in order: a pair is skipped exactly when its stripped question or answer is empty |
| `SimpleMemory.CorrectionsCoverCompletePairs` | example/simple_memory_system.py:105-127 | every complete pair is corrected; all-complete input gives one correction per pair; no correction exactly when no pair is complete |
| `SimpleMemory.CorrectionIds` | example/simple_memory_system.py:114 | correction ids are consecutive from the first fresh id |
| `SimpleMemory.AppendFreshIds` | example/simple_memory_system.py:114 | appending entries with fresh consecutive ids keeps every user's ids unique, ascending and below the counter |
| `SimpleMemory.AppendCorrections` | example/simple_memory_system.py:105-127 | the correction loop appends exactly the corrections of the complete pairs and counts them |
| `SimpleMemory.AppendSummaries` | example/simple_memory_system.py:184-196 | the build loop appends one summarization entry per summarized memory, in order |
| `SimpleMemory.SearchHitsSound` | example/simple_memory_system.py:47-57 | search returns the first matching stored entries in stored order (a match contains the whole query or one of its words longer than two characters, case-insensitively): `min(top_k, matches)` of them with `top_k` 10 when None or 0, all but the last `-top_k` for a negative one, and all matches when there are no more |
| `SimpleMemory.MatchingEntries` | example/simple_memory_system.py:49-53 | the matching loop keeps exactly the matching entries, in stored order |
| `SimpleMemory.SimpleMemorySystem.constructor` | example/simple_memory_system.py:32 | a new store has an empty cache |
| `SimpleMemory.SimpleMemorySystem.LoadUserMemories` | example/simple_memory_system.py:59-72 | a user seen for the first time gets an empty list; the cache of other users and the ids are unchanged |
| `SimpleMemory.SimpleMemorySystem.Search` | example/simple_memory_system.py:38-57 | search returns the hits of the user's entries under `memories` and changes no stored entry |
| `SimpleMemory.SimpleMemorySystem.AddCorrectionMemories` | example/simple_memory_system.py:94-132 | an empty list changes nothing and returns 0; otherwise the user's list grows by exactly the corrections of the complete pairs, the count is returned, and ids stay unique within each user's list |
| `SimpleMemory.SimpleMemorySystem.BuildMemory` | example/simple_memory_system.py:134-216 | a failed call or unparsable reply reports its error and changes nothing; a parsed reply appends one entry per memory and reports the summary, that count and the user's new total |
| `SimpleMemory.SimpleMemorySystem.AppendSummarized` | example/simple_memory_system.py:182-205 | the append step of a build adds the summary entries to the user's list and returns its new length |
| `SimpleAdapter.KeywordsOfExactly` | example/simple_adapter.py:44-46 | a token list yields exactly its tokens of length at least 3 that are not stop words |
| `SimpleAdapter.PairKeywordsExactly` | example/simple_adapter.py:37-46 | a failed pair contributes exactly the keyword tokens of its stripped, lowercased answer and question |
| `SimpleAdapter.KeywordsExactly` | example/simple_adapter.py:36-46 | the keyword set is exactly the lowercase word tokens of some failed pair's answer or question that have at least three characters and are not stop words |
| `SimpleAdapter.KeywordsAreKeywords` | example/simple_adapter.py:45 | every keyword is long enough and not a stop word |
| `SimpleAdapter.FallbackCount` | example/simple_adapter.py:60 | `max(1, n // 3)` keeps at least one line and never more than there are |
| `SimpleAdapter.FilterDialogue` | example/simple_adapter.py:32-34 | with no failed pairs or no keywords the dialogue comes back unchanged |
| `SimpleAdapter.LinesHaveNoNewLine` | example/simple_adapter.py:51-56 | lines taken from a split hold no line break |
| `SimpleAdapter.MatchedLines` | example/simple_adapter.py:51-58 | when some line mentions a keyword, the output's lines are exactly the input lines that do, in order |
| `SimpleAdapter.FallbackLines` | example/simple_adapter.py:59-61 | when no line mentions a keyword, the output is the first `max(1, n // 3)` lines, a prefix of the input |
| `SimpleAdapter.OutputIsSubsequence` | example/simple_adapter.py:19-63 | in every case the output's lines are a subsequence of the input's |
| `SimpleAdapter.RefilterNeverGrows` | example/simple_adapter.py:51-63 | filtering the output again never adds lines, and changes nothing when lines matched |
| `SimpleAdapter.EmptyOnlyFromEmptyFirstLine` | example/simple_adapter.py:58-61 | the output is empty only when the dialogue's first line is empty |
| `SimpleAdapter.EmptyFromNonEmptyDialogue` | example/simple_adapter.py:59-61 | the non-empty dialogue `"\nab"` filtered with answer "zzz" comes back empty |
| `SimpleAdapter.AddTextKeywords` | example/simple_adapter.py:40-46 | the token loop adds exactly the text's keywords |
| `SimpleAdapter.CollectKeywords` | example/simple_adapter.py:36-46 | the pair loop builds exactly the keyword set |
| `SimpleAdapter.KeepMatchingLines` | example/simple_adapter.py:52-56 | the line loop keeps exactly the lines that mention a keyword, in order |
| `SimpleAdapter.Update` | example/simple_adapter.py:19-63 | `update` returns the filtered dialogue as specified, so every property of the filter holds for it |
| `SimpleAdapter.CorrectionLineEnds` | example/simple_adapter.py:81 | a correction line opens with `Q: ` and the question and closes with ` A: ` and the true answer |
| `SimpleAdapter.CorrectionBlockLines` | example/simple_adapter.py:78-84 | when no failed question or answer holds a line break, the rebuild text's lines are the filtered dialogue's lines, an empty line, `Corrections:`, then one line per failed pair in order, opening with its question and closing with its true answer |
| `SimpleAdapter.ReconstructionTextShape` | example/simple_adapter.py:78-84 | the rebuild text starts with the filtered dialogue, equals it exactly when there are no failed pairs, and otherwise continues with the corrections header and the pairs' lines |
| `SimpleAdapter.Reconstruct` | example/simple_adapter.py:65-97 | the result is whether the rebuild succeeded; a failed rebuild leaves the store as it was; a successful one appends the summarized entries, stamped with the rebuild's clock reading, then the corrections, stamped with the later reading of `add_correction_memories`, with fresh ids |
| `MemoryChallenger.QaPairsFrom` | example/plugin/memory_challenger.py:69-90 | `[]` on a failed call, undecodable text, a missing `qa_pairs` list or a failing item; otherwise the first `min(num_qa, kept)` kept pairs (all but the last `-num_qa` for a negative `num_qa`) |
| `MemoryChallenger.KeptPairsFails` | example/plugin/memory_challenger.py:77-82 | collection fails exactly when some item with both keys has a value that is not a string |
| `MemoryChallenger.KeptPairsExactly` | example/plugin/memory_challenger.py:76-82 | the kept pairs are the items with both keys, in order, with question and answer stripped |
| `MemoryChallenger.KeptPairsStripped` | example/plugin/memory_challenger.py:80-81 | every generated question and answer is stripped |
| `MemoryChallenger.KeptPairsFailurePersists` | example/plugin/memory_challenger.py:76-82 | once an item breaks the loop, no later item changes the outcome |
| `MemoryChallenger.CollectPairs` | example/plugin/memory_challenger.py:76-82 | the item loop computes the kept pairs, or the failure |
| `MemoryChallenger.GenerateQaPairs` | example/plugin/memory_challenger.py:34-90 | `generate_qa_pairs` returns what the reply post-processing specifies, so its bound and error cases hold |
| `MemoryEvaluator.RetrievalContext` | example/plugin/memory_evaluator.py:113-116 | without any search result the context is empty |
| `MemoryEvaluator.ContextLines` | example/plugin/memory_evaluator.py:113-116 | the context has one line per item of `memories`, or of `episodic + semantic` when `memories` is empty, holding the item's content or "" |
| `MemoryEvaluator.RetrieveAnswer` | example/plugin/memory_evaluator.py:104-128 | the answer is the content of the model's reply to the question over the retrieved context ("" when the reply has none); a failed search or a failed call gives "" |
| `MemoryEvaluator.SessionRecords` | example/plugin/memory_evaluator.py:149-162 | one record per pair, in order, with its question and true answer, the answer retrieved for the question, the similarity of the true answer to it, and passing exactly when that similarity is at least 0.8 |
| `MemoryEvaluator.Assess` | example/plugin/memory_evaluator.py:138-195 | the error result appears exactly when there are no records |
| `MemoryEvaluator.SessionEvaluation` | example/plugin/memory_evaluator.py:138-140 | without pairs the result is the error with no reconstruction; otherwise it is a summary counting every pair |
| `MemoryEvaluator.AssessCounts` | example/plugin/memory_evaluator.py:149-188 | `passed` counts the passing records, passes and failures add up to the number of questions, `failed_qa` holds exactly the failing records in question order with their multiplicity, the pass rate is `passed / total * 100`, and reconstruction is asked for exactly when it is below 70 |
| `MemoryEvaluator.PassRateBounds` | example/plugin/memory_evaluator.py:177 | the pass rate is a percentage, 100 exactly when every question passed |
| `MemoryEvaluator.RateBelowThreshold` | example/plugin/memory_evaluator.py:177-178 | the rate is below 70 exactly when `10 * passed < 7 * total` |
| `MemoryEvaluator.NeedReconstructIff` | example/plugin/memory_evaluator.py:178 | reconstruction is asked for exactly when fewer than 70% of the questions passed |
| `MemoryEvaluator.SevenOfTen` | example/plugin/memory_evaluator.py:24 | seven passes out of ten do not trigger reconstruction; six do |
| `MemoryEvaluator.ErrorAnalysisMatches` | example/plugin/memory_evaluator.py:189-192 | the error count is the number of failures, and error types are listed exactly when some question failed |
| `MemoryEvaluator.ScoreQuestions` | example/plugin/memory_evaluator.py:149-173 | the question loop counts exactly the passing records and collects exactly the failing ones, in order |
| `MemoryEvaluator.EvaluateSessionMemories` | example/plugin/memory_evaluator.py:130-195 | the method returns the specified evaluation, and its flag is the summary's `need_reconstruct` (False without pairs) |
| `AmaPipeline.BumpCount` | src/AMA_pipeline.py:112 | incrementing one type's count changes that count by one and no other |
| `AmaPipeline.BumpTotal` | src/AMA_pipeline.py:112 | incrementing adds one to the sum of the counts |
| `AmaPipeline.BumpWellFormed` | src/AMA_pipeline.py:109-112 | incrementing keeps each type listed once with a positive count |
| `AmaPipeline.KeyIffCounted` | src/AMA_pipeline.py:109-112 | a type is a key exactly when its count is positive |
| `AmaPipeline.ErrorTypesExactly` | src/AMA_pipeline.py:109-112 | `error_types` lists each type once and counts, for each type, exactly the failing evaluations of that type; the counts add up to the failing evaluations |
| `AmaPipeline.FlaggedAmongFailures` | src/AMA_pipeline.py:106-112 | evaluations counted by type are among the failures, and are all of them when every evaluation carries `is_pass` |
| `AmaPipeline.AnalysisCounts` | src/AMA_pipeline.py:101-120 | passes and failures add up to the number of evaluations; with none all counts are 0 and the rate is missing |
| `AmaPipeline.ErrorTypesBound` | src/AMA_pipeline.py:106-119 | the per-type counts add up to at most `failed`, exactly `failed` when every evaluation carries `is_pass` |
| `AmaPipeline.SummaryFacts` | src/AMA_pipeline.py:122-133 | the summary counts the evaluations and asks for an update exactly when some evaluation did not pass |
| `AmaPipeline.Evaluations` | src/AMA_pipeline.py:56-73 | one judgement per question, in order: the judge's verdict on the question, its answer and the answer given from the entries |
| `AmaPipeline.MissingSummaryLines` | src/AMA_pipeline.py:54-74 | `missing_summary` is an empty line followed by one line per evaluation, holding its missing summary |
| `AmaPipeline.EvaluateSessionMemories` | src/AMA_pipeline.py:27-99 | without pairs the result is untouched with False and ""; otherwise it holds every judgement and the analysis, reconstruction is signalled exactly when more than two fail (and then with a strategy and a summary asking for an update) |
| `ExampleSession.MemoryFile` | example/example_session.py:146 | the memory file lies in the output directory and ends in its suffix |
| `ExampleSession.ProcessSession` | example/example_session.py:72-197 | the run succeeds exactly when no error is recorded; any exception, including the missing pass rate with no pairs, leaves the record as far as it got plus the message; reconstruction is recorded exactly when asked for and successful, and then the second evaluation fills `after_reconstruct` |
| `ExampleSession.Transcript` | example/example_session.py:216-219 | an empty list of turns gives an empty dialogue |
| `ExampleSession.TranscriptLines` | example/example_session.py:216-219 | the dialogue has one `speaker: text` line per turn, in order, where speaker is `role`, else `speaker`, else "user" |

## Left out

- Lowercasing, `\w` and whitespace are ASCII only; Unicode case mapping and character classes are not modelled.
- File I/O is not modelled. This covers `_load_user_memories` reading a user's JSON file (a user never loaded starts empty), `_save_user_memories`, `save_to_file`, `load_from_file`, the storage and output directories, `mkdir`, and the normalization of `output_dir` by `Path`.
- JSON encoding and decoding are oracles (`decode`). The model does not parse JSON text.
- Language-model calls, embeddings and cosine similarity are oracles. Their results are parameters, and the prompt texts are not modelled.
- Floating point is modelled as exact reals, including the pass rate. The `round(similarity, 4)` of the stored record is not applied.
- `uuid4` is a counter and each `datetime.now()` is a clock parameter: ids are unique by construction, not random strings. `Reconstruct` takes one reading for the rebuild and another for the corrections; nothing relates the two.
- Logging, printing, timing (`duration`) and the traceback are left out.
- The `"type": "qa_correction"` metadata field of correction entries is left out; the `source` tag identifies them.
- `build_memory` writes each appended entry into the cached list through an alias before saving. An exception thrown in the middle of the append loop (a non-dict memory item) would leave part of the batch. The model treats such an item as unparsable and appends nothing.
- SimpleAdapter.Update: the `memory`, `user_id` and `failed_reasons` parameters are not read by the source and are dropped.
- SimpleAdapter.Reconstruct: `batch_size` and `max_retries` are unused by the source and dropped. The `isinstance` check is taken as satisfied. The exception path is not modelled. `add_correction_memories` has no `try`: a failed write in `_save_user_memories`, or a non-string question or answer, raises into `reconstruct`, which then returns False although `build_memory` has already appended and saved its entries. The model has no file writes that fail, and its records always hold strings, so `Reconstruct` returns True after every successful rebuild.
- MemoryChallenger.GenerateQaPairs: the default `num_qa = 10` is not modelled; callers pass `numQa`. The evaluator's question list is the `generate` oracle of `SessionEvaluation`, so it carries no bound of 10.
- MemoryChallenger.QaPairsFrom: a `qa_pairs` value that is not a list, and items that are not dictionaries, are not modelled.
- AmaPipeline.EvaluateSessionMemories: judgements are reduced to `missing_summary`, an optional boolean `is_pass` and an optional `error_type`. Python truthiness of non-boolean `is_pass` values, and an `analysis` that is not a dictionary, are not modelled. The strategy is reduced to its `improve_instructions`.
- MemoryEvaluator.RetrieveAnswer: `top_k_memories=20` and `search_method="vector"` are passed to the search oracle implicitly; a reply with `None` content gives "".
- ExampleSession.ProcessSession: the store, the evaluator and the adapter are given as the outcomes of their calls. An evaluation is indexed by its round (0 before reconstruction, 1 after), since the store changes in between. Saving is an oracle returning an optional error message.
- ExampleSession.TranscriptLines: `str()` of non-string turn fields is not modelled, and neither is the rest of `main` (argument parsing, reading the dialogue file, choosing between a list and a session object).
- `src/challenger.py`, `src/adapter.py` and `src/evaluator.py` are represented only by the oracle signatures the pipeline calls.
