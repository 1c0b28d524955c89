# Job enrichment pipeline — a Dafny model

This project models the core of `JobProcessor` in `process_jobs_rag.py`. The
driver `process_jobs` optionally harvests and inserts new job postings. It then
runs four column-driven stages over the `jobs` table, always in the same order:

1. **keywords**: rows with no `keyword` get a cleaned keyword list from a language model;
2. **retrieval**: rows with keywords and no `rag_info` get the answer of a retrieval service;
3. **analysis**: rows with `rag_info` and no `gpt_analysis` get an analysis, a score and a best-fit flag;
4. **score backfill**: rows with an analysis and no score get a score re-extracted from the stored text.

Each stage selects a limited number of rows through its `WHERE`/`LIMIT` query.
It handles them one after another and reports how many it wrote. Any exception
ends the stage, which then reports 0. The file also defines the
connection-recovery decorator `with_milvus_recovery`: it retries an operation
that failed with a connectivity symptom, probing the vector store between
attempts.

Modules, one per file:

- `Opt` (`opt.dfy`): the `Option` type used for nullable columns.
- `Text` (`text.dfy`): the string functions the code relies on:
  - `str.lower` (ASCII);
  - `str.strip`, with Python's whitespace set;
  - `replace('\n', ', ')`;
  - substring search;
  - slicing `[:n]`.
- `Recovery` (`recovery.dfy`): the retry guard as a pure function of the wrapped operation's outcomes and of the reconnect probe's outcomes.
- `Scores` (`scores.dfy`): the score extractor. It holds the first-match loop over the three patterns, the threshold 7.0, and an exact model of the bare pattern `(\d+(?:\.\d+)?)\s*\/\s*10` as a leftmost regular-expression search.
- `JobStore` (`jobstore.dfy`): the `jobs` row, the table (a map plus the order a scan returns rows in), and the column lattice `keyword ⊑ rag_info ⊑ gpt_analysis`.
- `Stages` (`stages.dfy`): the four stages. Each is one generic row loop parameterised by a per-row decision.
- `Pipeline` (`pipeline.dfy`): the driver.

The outside world is passed in as data rather than performed:

- the language models and the retrieval service are functions in `Stages.Env`;
- the environment flag `SKIP_MILVUS_CHECK` is a boolean;
- the reconnect probe is a function of the attempt number. Its outcome is computed by `Recovery.ProbeOutcome` from two inputs: whether the store is reachable, and the operator's answer (absent at end of input);
- the failures of the database are a `StoreFaults` value per stage;
- the harvest and the insertion are parameters of `Pipeline.ProcessJobs`.

Notable behaviours of the code:

- The analysis stage stores score 0 and `is_best_fit = false` when no pattern matches. It never stores a NULL score, so such rows are never picked up by the score backfill (`Stages.AnalysedRowsSkipBackfill`).
- A retrieval reply whose `answer` is present but null is written and counted. The row keeps `rag_info` NULL and is selected again on the next run.
- Scores are not bounded by 10: "85/10" reads as 85 (`Scores.BareScoreIsNotCapped`).

## Model

| member | source | states |
|---|---|---|
| Recovery.Guard | process_jobs_rag.py:41-62 | With the skip flag the operation is called once and its outcome passes through. Otherwise there are at most `max_attempts` calls, and a non-positive bound returns nothing without calling. A returned value or raised error is the last call's outcome. Each retry costs one reconnect probe. A probe that exits ends the run, and a probe that raises makes the guard raise the probe's error. |
| Recovery.Attempt | process_jobs_rag.py:51-62 | From attempt `k`: between 1 and `max_attempts - k` calls. Every call but the last was retried (a connectivity error followed by a probe that went on). The last call's outcome decides the result: success returns, a non-connectivity error or the final attempt raises, an exiting probe exits, and a raising probe raises its own error. |
| Recovery.ProbeOutcome | process_jobs_rag.py:157-178 | The probe goes on iff the store is reachable or the operator answered "y" in any case. It exits iff the store is unreachable and the answer is anything else. It raises `EOFError` iff the store is unreachable and there is no input to read. |
| Recovery.ConnectionMarkerRedundant | process_jobs_rag.py:55-56 | The "connection" marker adds nothing: an error counts as a connectivity error iff its lower-cased text contains "timeout" or "connect". |
| Recovery.RetriesPostpone | process_jobs_rag.py:51-60 | Retried calls only postpone the outcome: the loop from `k` equals the loop from `j` after `j - k` extra calls and probes. |
| Recovery.LastAttemptRaises | process_jobs_rag.py:57-62 | An error on the last allowed attempt is re-raised even when it is a connectivity error, with no probe. |
| Recovery.TransparentSuccess | process_jobs_rag.py:51-60 | If the operation succeeds at attempt `j` after `j` retried failures, the guard returns that value after `j + 1` calls and `j` probes. |
| Recovery.NonConnectionErrorRaisedAtOnce | process_jobs_rag.py:54-62 | A non-connectivity error is raised at the attempt where it occurs, without a probe. |
| Recovery.ExhaustedRetriesRaiseLastError | process_jobs_rag.py:51-62 | When every attempt fails with a retried connectivity error, the guard raises the last attempt's error after `max_attempts` calls and `max_attempts - 1` probes. |
| Recovery.ProbeErrorEscapes | process_jobs_rag.py:54-62 | A probe that raises after a connectivity error at attempt `j` is not caught by the guard. The guard raises the probe's error after `j + 1` calls and `j + 1` probes. |
| Recovery.UnattendedProbeRaises | process_jobs_rag.py:157-178 | With the store unreachable and no input to read, a first connectivity error makes the guard raise the `EOFError` of `input()`. |
| Recovery.SucceedsOnThirdAttempt | process_jobs_rag.py:30-62 | With the default bound 3, "Connection refused" then "Request TIMEOUT" then a success returns the success. |
| Text.Lower | process_jobs_rag.py:520 | Lower-casing keeps the length, leaves no capital, maps each capital to its small letter and keeps every other character. |
| Text.Strip | process_jobs_rag.py:326 | `strip()` returns a contiguous piece of the input with whitespace only before and after it. Its ends are not whitespace, and it is empty iff the input is all whitespace. |
| Text.StripIdempotent | process_jobs_rag.py:326 | Stripping twice is stripping once. |
| Text.ReplaceNewlines | process_jobs_rag.py:329 | The result contains no line break and is empty iff the input is empty. Text without line breaks is unchanged. |
| Text.ReplaceNewlinesJoins | process_jobs_rag.py:329 | A line break between two pieces of text becomes ", " and each piece is rewritten on its own. |
| Text.Truncate | process_jobs_rag.py:312 | The prefix of at most `n` elements: the whole input when it is shorter, otherwise exactly `n`. Used for the 4000-character description slice and for each query's `LIMIT`. |
| Text.Contains | process_jobs_rag.py:55-56 | Substring search holds iff the substring occurs at some position. |
| Stages.CleanKeywords | process_jobs_rag.py:326-329 | The cleaned reply is empty iff the reply is all whitespace and never spans lines. A single-line stripped reply is kept as it is. |
| Stages.CleanKeywordsJoinsLines | process_jobs_rag.py:326-329 | A reply of two lines whose outer ends are not whitespace is cleaned to the first line, ", " and the second line. |
| Stages.CleanTwoLineReply | process_jobs_rag.py:326-329 | The reply "Python\nSQL" is cleaned to "Python, SQL". |
| Stages.ExtractKeywords | process_jobs_rag.py:301-334 | Keywords come back iff the description is present and the model answered about the title and the first 4000 characters. They are the cleanup of the model's reply to those inputs and never contain a line break. |
| Stages.KeywordAction | process_jobs_rag.py:275-295 | The keyword stage never raises for a row. It writes exactly when the cleaned keywords are non-empty, and it writes those keywords. |
| Stages.RetrievalQuery | process_jobs_rag.py:367 | The query is the fixed preamble followed by the row's keywords. |
| Stages.RetrievalAction | process_jobs_rag.py:369-397 | A row raises iff the service raised. It is written iff the reply has an `answer` key, and the answer (possibly null) is what is written. |
| Stages.AnalysisAction | process_jobs_rag.py:423-536 | A row is written iff it has a description and the model returned text. The write stores the model's reply to the title, the first 4000 characters of the description and the row's `rag_info`, with its extracted score and the threshold flag. |
| Stages.ScoreAction | process_jobs_rag.py:557-590 | A row is written iff the score extracted from the stored analysis is positive. It gets that score and the flag `score >= 7.0`. |
| Stages.Apply | process_jobs_rag.py:450-456 | Each stage's `UPDATE` changes only that stage's own columns and stores the update's values in them: the keyword (lines 283-287), `rag_info` (385-390), the analysis with its score and flag (450-456), or the score with its flag (581-587). |
| Stages.EffectFacts | process_jobs_rag.py:251-596 | Per row, every stage changes only its own columns, clears none and keeps the column lattice. A written row has passed the stage's write gate and leaves the stage's selection, except after a null retrieval answer. |
| Stages.EligibleIn | process_jobs_rag.py:256-261 | The rows of the scan that the stage's `WHERE` admits, and only those, with no key twice. |
| Stages.Select | process_jobs_rag.py:256-261 | The selection is distinct, within the stage's `LIMIT` (50, 25, 25, 50; the other queries are at lines 345-350, 411-416 and 543-548) and admitted by its `WHERE`. It is short only when no other row qualifies. |
| Stages.WritesOf | process_jobs_rag.py:270-297 | The selected rows whose decision is a write, and only those. |
| Stages.WritesOfCons | process_jobs_rag.py:270-297 | The writes keep the selection's order: a batch's first row, if written, comes before the writes of the rest. |
| Stages.Process | process_jobs_rag.py:270-297 | The row loop keeps the table's key set, handles at most the selection, and writes at most the rows it handled. |
| Stages.ProcessStopsAtFirstFailure | process_jobs_rag.py:270-300 | The loop handles the selection up to the first row whose handling raises. It gets through all of it iff no selected row raises. |
| Stages.ProcessWrites | process_jobs_rag.py:270-297 | The rows written are exactly the written-decision rows among those handled, in order. |
| Stages.ProcessRows | process_jobs_rag.py:281-292 | A handled row that was written holds the decision's update. Every other row is unchanged. |
| Stages.RunStage | process_jobs_rag.py:251-300 | A stage keeps the table's keys and scan, selects within its cap, and writes only selected rows. It reports 0 when it raised and the number written otherwise. Retrieval without an initialised service does nothing. |
| Stages.StageRowEffect | process_jobs_rag.py:270-297 | After a stage, a written row is the stage's decision applied to the row as selected. Every other row is unchanged. |
| Stages.StageKeepsLattice | process_jobs_rag.py:251-596 | Each stage changes only its own columns, clears no column and keeps the column lattice of every row. |
| Stages.StageWriteGates | process_jobs_rag.py:251-596 | Every written row passed the stage's write gate. It no longer satisfies the stage's `WHERE`, except after a null retrieval answer. |
| Stages.StageAbortCause | process_jobs_rag.py:253-300 | A stage raises iff its query raises or the handling of some selected row raises. |
| Stages.StageCompletes | process_jobs_rag.py:270-297 | A stage that does not raise writes every selected row whose decision is a write, in order, and reports that many. |
| Stages.StageAbortKeepsCommitted | process_jobs_rag.py:251-300 | When the first row whose handling raises is the `i`-th selected row, the stage reports 0, yet the writes of the rows before it stay committed: exactly the written-decision rows among the first `i`. |
| Stages.KeywordStageAbortsOnlyOnStoreFaults | process_jobs_rag.py:251-334 | The keyword stage raises iff its query raises, as long as no update fails. |
| Stages.CleanTrimmedLine | process_jobs_rag.py:326-329 | A trimmed single-line reply survives the cleanup unchanged. |
| Stages.KeywordScenarioRow | process_jobs_rag.py:275-292 | The reply "Python, SQL, Docker" makes the keyword stage write exactly that list. |
| Stages.KeywordScenario | process_jobs_rag.py:251-300 | A selected row with a description and the reply "Python, SQL, Docker" gets exactly that keyword list. It then qualifies for the retrieval stage. |
| Stages.AnalysedRowsSkipBackfill | process_jobs_rag.py:444-456 | Every row the analysis stage wrote has a score, so the score backfill never selects it. |
| Scores.FirstMatch | process_jobs_rag.py:519-527 | The pattern loop yields nothing iff no pattern matches. Otherwise it yields the value of the first pattern that matches. |
| Scores.ExtractScore | process_jobs_rag.py:562-577 | The score is decided on the lower-cased text: the labelled score pattern first, then the bare `N/10`, then the labelled rating, else 0. |
| Scores.Assess | process_jobs_rag.py:508-528 | The analysis score is the extracted score, and the best-fit flag holds iff the score is at least 7.0. An unmatched text gives score 0 and no best fit. |
| Scores.NumberAt | process_jobs_rag.py:514 | The number group matches at a position iff a digit stands there, and it ends within the text. |
| Scores.SearchLeftmost | process_jobs_rag.py:520 | `re.search` finds nothing iff the pattern matches at no position. Otherwise it yields the match at the first position where one exists. |
| Scores.NaturalRoundTrip | process_jobs_rag.py:523 | Reading back the decimal digits of `n` gives `n`. |
| Scores.NoDigitNoMatch | process_jobs_rag.py:520 | Digit-free text before a position never holds a bare match. |
| Scores.OutOfTenReadsNumber | process_jobs_rag.py:514-523 | In digit-free text followed by `N.F/10`, the bare pattern reads the number `N.F`. |
| Scores.OutOfTenReadsWholeNumber | process_jobs_rag.py:514-523 | In digit-free text followed by `N/10`, the bare pattern reads `N`. |
| Scores.NoDigitNoBareScore | process_jobs_rag.py:514-520 | A text without digits has no bare `N/10` match. |
| Scores.NoMentionScoresZero | process_jobs_rag.py:507-528 | A text with no labelled match and no digit scores 0 and is not a best fit. |
| Scores.BareScoreIsNotCapped | process_jobs_rag.py:514-523 | "85/10" scores 85: the pattern does not bound the scale. |
| Scores.RatedSixOutOfTen | process_jobs_rag.py:507-528 | "I'd rate this 6/10" scores 6 and is not a best fit, when the labelled score pattern finds nothing. |
| Pipeline.RunStages | process_jobs_rag.py:212-230 | Stages run in sequence, one report each, in the given order. The table's keys and scan are kept. |
| Pipeline.RunStagesKeepsLattice | process_jobs_rag.py:212-230 | A run of stages clears no column of any row and keeps the column lattice. |
| Pipeline.ProcessJobs | process_jobs_rag.py:189-239 | The connection is released last and exactly once. Outside test mode, an empty or missing harvest leaves the table untouched before any stage. The four stages run in order exactly when in test mode, or when a non-empty harvest was inserted without error. An insertion that raised ends the run with the table as the insertion left it. |
| Pipeline.RunStagesCons | process_jobs_rag.py:212-230 | Running a stage list runs its first stage over the given table, then the rest over the table that stage left, and reports the first stage's own count before the rest's reports. |
| Pipeline.StageOrderChains | process_jobs_rag.py:212-230 | The fixed stage order is keywords, retrieval, analysis, score backfill, each over the table the previous one left, committed writes of an aborted stage included, each reporting its own count. |
| Pipeline.ProcessJobsRunsStagesInOrder | process_jobs_rag.py:189-239 | A run that reaches the stages ends with the table those four stages leave, starting from the input table in test mode or the table after the insertion, and logs their four counts and then the release. |
| Pipeline.KeywordScenarioEndToEnd | process_jobs_rag.py:189-239 | In test mode, a selected row with a description and the reply "Python, SQL, Docker" ends the whole run with that keyword list, since the later stages leave the keyword column alone. |
| Pipeline.ProcessJobsKeepsLattice | process_jobs_rag.py:189-239 | A run that reaches the stages keeps the row set, clears no column and keeps the lattice. |

## Left out

- Logging, the log file, the `time.sleep` pauses and the debug JSON files written per retrieval answer are not modelled. Writing a debug file could raise and end the retrieval stage; the model assumes it does not. The model also assumes `self.log` never raises. It appends to a file (line 186), so a failed write would end a stage with 0, and the one at line 191, outside the `try`, would skip `db.close()`.
- The harvest (`retrieve_jobs`, the Apify wrapper) and the insertion (`insert_jobs`) are parameters. Their internals, and the generated `id` and `created_at` columns, are not part of this model.
- The OpenAI calls and the retrieval service are functions in `Stages.Env`. The prompt texts beyond the inputs they are built from (title, truncated description, retrieval context) are not modelled.
- The reconnect probe `_ensure_milvus_connection`: the socket check is a boolean input, the prompt's answer an optional string. Its logging is not modelled. Its own `SKIP_MILVUS_CHECK` shortcut (line 160) is left out because the guard checks the same flag first (line 43) and never probes when it is set.
- The four `SELECT` queries have no `ORDER BY`, so each may return rows in its own order. The model uses one scan order, `Table.scan`, for all four queries.
- The retrieval stage is not wrapped in `with_milvus_recovery` in the code (line 370 calls `rag.query` directly), so the model does not wrap it either. The guard is modelled on its own.
- Floating-point numbers are exact reals. `float()` rounding of long decimals is not modelled.
- Scores.ExtractScore: the two labelled patterns (`score[:\s]+…`, `rating[:\s]+…`) are abstract matchers supplied with the model. Only the bare `N/10` pattern is modelled character by character.
- Text.Lower: only ASCII letters are lower-cased, and `\d` matches only ASCII digits. Python's Unicode case mapping and Unicode digits are not modelled.
- Database connection failures are modelled per stage as "the query raises" and "the update of these rows raises". Commits and transactions are not modelled.
- The email service, `main.py` and `run_job_processing.py` are outside this model.
