# Synthetic review generator: quality gates and retry loops

This project models, in Dafny, the core of a generator of synthetic
software-product reviews. An LLM writes a candidate review for a persona
and star rating. Six quality gates judge the candidate:

- **length**: word-count bounds;
- **diversity**: maximum Jaccard similarity to the reviews accepted so far;
- **semantic**: TF-IDF cosine, failing open;
- **bias**: a sentiment band per rating;
- **realism**: an LLM judge, failing open;
- **persona**: keyword coverage.

A retry loop regenerates rejected candidates up to a budget. Every attempt
is logged, and accepted reviews grow the corpus later candidates are
compared with. Around this core sit:

- log-row construction and by-model grouping in the storage class;
- post-processing of the model's reply in the raw generator;
- the counting parts of the two reports;
- the rule-based `score_review`;
- required-field validation of the configuration.

Everything external is a parameter:

- The LLM generator is a function from attempt number (and forced-bad
  flag) to an outcome: a review with its duration, or an exception.
- TextBlob polarity, the TF-IDF cosine and the realism judge are the
  oracles of `Types.Oracles`.
- The 10% random choice of a forced bad first attempt is a boolean
  argument.

The three retry loops differ, and each is modelled on its own:

- `Pipeline.GenerationPipeline` owns the corpus, logs exceptions as
  "exception" and raises `RuntimeError` on exhaustion.
- `Generator.ReviewGenerator` returns None on exhaustion, and its
  `generate_all` counts successes and skips.
- `QualityGenerator.ReviewGenerator` forces the first attempt of every
  fifth slot and lets generator exceptions propagate.

Each loop is a class whose method updates its fields (the corpus, the
log, the CSV rows). It is proved against a specification function of the
generator's answers, and `Retry` holds what the loops share.

Some behaviour of the code is easy to misread, and the model follows the
code as written:

- `check_all` evaluates all six gates before it scans the results for the
  first failure. A short-circuit chain would skip the realism call after
  an early failure; here the judge is consulted for every candidate
  (`Checker.Evaluate`, `Checker.EveryGateEvaluated`).
- Exhaustion is fatal in generator/pipeline.py, which raises
  `RuntimeError`, while src/generator.py returns None.
  generator_with_quality.py returns None on exhaustion but lets generator
  and checker exceptions propagate.
- The sentiment gate and the keyword-coverage gate are reported under the
  names "bias" and "persona", and those are the names modelled.
- A review from generator/core.py already carries `model =
  provider/model`. `log_attempt` prefixes the provider again, so such a
  row's model column reads `provider/provider/model`. `Storage.RowColumns`
  states the column as the code builds it.

## Model

| member | source | states |
|---|---|---|
| Text.Lower | synthetic-review-generator/src/quality/utils.py:11 | `str.lower()` on ASCII letters; its properties are stated by Text.LowerIsLower and Text.LowerCharIdempotent |
| Text.Words | synthetic-review-generator/src/quality/length.py:8 | `str.split()` with no argument: the maximal runs of non-whitespace characters; Text.WordsAreWords and Text.WordsOfJoin state what it yields |
| QualityUtils.Tokenize | synthetic-review-generator/src/quality/utils.py:10-11 | every token is non-empty, contains no whitespace and is lower case |
| QualityUtils.TokensAreLowerWords | synthetic-review-generator/src/quality/utils.py:11 | the words of the lower-cased text are non-empty, whitespace-free and lower case |
| QualityUtils.TokenizeRoundTrip | synthetic-review-generator/src/quality/utils.py:11 | tokenizing the space-joined tokens gives the same token list |
| QualityUtils.Jaccard | synthetic-review-generator/src/quality/utils.py:14-17 | the similarity always lies in [0, 1] |
| QualityUtils.JaccardOfEmpty | synthetic-review-generator/src/quality/utils.py:17 | two empty sets have similarity 0 (empty union) |
| QualityUtils.JaccardSymmetric | synthetic-review-generator/src/quality/utils.py:15-16 | the similarity does not depend on argument order |
| QualityUtils.JaccardOfSelf | synthetic-review-generator/src/quality/utils.py:15-17 | a non-empty set has similarity 1 with itself |
| QualityUtils.JaccardOneMeansEqual | synthetic-review-generator/src/quality/utils.py:15-17 | similarity 1 with a non-empty union means the sets are equal |
| QualityUtils.SubsetCard | synthetic-review-generator/src/quality/utils.py:15-16 | a subset is no larger than its superset and equal when as large (the intersection and union bound) |
| Length.Check | synthetic-review-generator/src/quality/length.py:7-12 | `LengthMetric.check`; Length.ScoreIsWordCount, Length.BlankTextFails and Length.JoinedWordsScore state its verdict and score |
| Length.ScoreIsWordCount | synthetic-review-generator/src/quality/length.py:7-12 | the score is the number of whitespace-separated words and is non-negative |
| Length.BlankHasNoWords | synthetic-review-generator/src/quality/length.py:8 | empty or whitespace-only text splits into no words |
| Length.BlankTextFails | synthetic-review-generator/src/quality/length.py:8-10 | blank text scores 0 and fails whenever min_words > 0 |
| Length.InvertedBoundsRejectAll | synthetic-review-generator/src/quality/length.py:10 | with min_words > max_words every text fails |
| Length.JoinedWordsScore | synthetic-review-generator/src/quality/length.py:8-11 | a text of n words passes iff min_words <= n <= max_words, and scores n |
| Diversity.Lexical | synthetic-review-generator/src/quality/diversity.py:10-25 | the result of `DiversityMetric.check`; Diversity.LexicalIsMaximum states that it is the largest Jaccard similarity and when it passes |
| Diversity.Semantic | synthetic-review-generator/src/quality/diversity.py:33-50 | `SemanticMetric.check` with the TF-IDF cosine as an oracle; Diversity.SemanticFailsOnlyAboveThreshold states its verdict |
| Diversity.MaxSimilarity | synthetic-review-generator/src/quality/diversity.py:15-20 | the running maximum is in [0, 1], at least every entry's similarity, and 0 or equal to some entry's |
| Diversity.Check | synthetic-review-generator/src/quality/diversity.py:10-25 | the loop of `DiversityMetric.check` computes the lexical gate result |
| Diversity.LexicalIsMaximum | synthetic-review-generator/src/quality/diversity.py:14-25 | on a non-empty corpus the score is the largest Jaccard similarity to an entry, and the gate passes iff it is <= max_jaccard |
| Diversity.EmptyCorpusPasses | synthetic-review-generator/src/quality/diversity.py:11-35 | both similarity gates pass with score 0 on an empty corpus |
| Diversity.SemanticFailsOnlyAboveThreshold | synthetic-review-generator/src/quality/diversity.py:33-50 | the semantic gate fails iff the corpus is non-empty, the cosine produced a value and that value exceeds max_similarity; a vectorizer error passes with score 0 |
| Diversity.DuplicateFails | synthetic-review-generator/src/quality/diversity.py:17-23 | a candidate with the same non-empty token set as some entry scores 1 and fails when max_jaccard < 1 |
| Diversity.ResubmissionFails | synthetic-review-generator/src/quality/diversity.py:17-23 | the same text submitted again after joining the corpus scores 1 and fails when max_jaccard < 1 |
| Diversity.AppendNeverLowers | synthetic-review-generator/src/quality/diversity.py:17-20 | adding entries never lowers the maximum |
| Diversity.OrderIrrelevant | synthetic-review-generator/src/quality/diversity.py:17-20 | reordering the corpus texts does not change the maximum |
| Diversity.BoundedByOther | synthetic-review-generator/src/quality/diversity.py:17-20 | a reordering of the corpus texts has a maximum at least as large |
| Diversity.CorpusGrowthNeverLowers | synthetic-review-generator/src/quality/diversity.py:10-25 | appending a review to the corpus never lowers the lexical score |
| Bias.BandOf | src/quality/bias.py:21 | `self.ranges.get(rating, (-0.3, 0.5))`; Bias.BandOfEntry, Bias.UnknownRatingIsNeutral and Bias.BandIsNonEmpty state which band is used |
| Bias.Check | src/quality/bias.py:19-26 | `BiasMetric.check` with the TextBlob polarity as an oracle; Bias.OutsideFails and Bias.BoundsPass state its verdict |
| Bias.Lookup | src/quality/bias.py:21 | the lookup fails iff no entry has the rating, and otherwise returns an entry's band for it |
| Bias.UnknownRatingIsNeutral | src/quality/bias.py:12-21 | a rating absent from the table uses (-0.3, 0.5), the band of rating 3.0 |
| Bias.BandOfEntry | src/quality/bias.py:7-21 | each table rating is looked up to its own band |
| Bias.TableIsMonotone | src/quality/bias.py:8-16 | every band has low < high; low bounds strictly increase with rating and high bounds never decrease |
| Bias.BandIsNonEmpty | src/quality/bias.py:8-21 | the band used for any rating has low < high |
| Bias.BoundsPass | src/quality/bias.py:24 | with tolerance >= 0, polarity exactly at a band bound passes |
| Bias.OutsideFails | src/quality/bias.py:19-26 | the score is the measured polarity, and the gate passes iff low - tolerance <= polarity <= high + tolerance |
| Realism.Check | synthetic-review-generator/src/quality/realism.py:10-34 | `RealismMetric.check` with the judge as an oracle; Realism.Decision and Realism.FailsOnlyOnLowScore state its verdict |
| Realism.Decision | synthetic-review-generator/src/quality/realism.py:10-34 | with a number from the judge the gate passes iff it is >= min_realism_score and scores it; any judge or parse error passes with score exactly 7.0 |
| Realism.FailsOnlyOnLowScore | synthetic-review-generator/src/quality/realism.py:25-34 | the gate fails only when the judge answered a number below the threshold, so errors never block |
| Persona.Check | synthetic-review-generator/src/quality/persona.py:8-20 | `PersonaMetric.check`; Persona.ScoreBounds and Persona.CheckIgnoresCase state its score and verdict |
| Persona.Matches | synthetic-review-generator/src/quality/persona.py:14-15 | the match count is at most the number of keywords |
| Persona.ScoreBounds | synthetic-review-generator/src/quality/persona.py:8-20 | 0 <= score <= number of keywords |
| Persona.MatchesAppend | synthetic-review-generator/src/quality/persona.py:15 | each keyword is counted on its own, so counts over concatenated keyword lists add |
| Persona.DuplicateCountsTwice | synthetic-review-generator/src/quality/persona.py:15 | a matching keyword listed twice counts twice |
| Persona.MatchesIgnoresCase | synthetic-review-generator/src/quality/persona.py:14-15 | texts and keywords equal up to letter case give the same count |
| Persona.CheckIgnoresCase | synthetic-review-generator/src/quality/persona.py:8-20 | the gate result does not depend on the letter case of the text or the keywords |
| Persona.CheckOfLowerText | synthetic-review-generator/src/quality/persona.py:14 | lower-casing the text beforehand changes nothing |
| Checker.Scores | synthetic-review-generator/src/quality/checker.py:37 | the dict comprehension over the results; Checker.ScoresKeys and Checker.ScoresOfDistinct state its keys and values |
| Checker.DecideFrom | synthetic-review-generator/src/quality/checker.py:27-38 | the scan of the results from one position on; Checker.PassedFromIff and Checker.FirstFailureFrom state its outcome |
| Checker.Decide | synthetic-review-generator/src/quality/checker.py:27-38 | the whole scan; Checker.PassedIffAllPassed and Checker.FirstFailureReported state its outcome |
| Checker.Evaluate | synthetic-review-generator/src/quality/checker.py:18-25 | six results are collected, named length, diversity, semantic, bias, realism, persona in that order |
| Checker.CheckAll | synthetic-review-generator/src/quality/checker.py:17-38 | `check_all` passes iff all six gate results passed, and returns the scan of the eagerly collected results |
| Checker.PassedFromIff | synthetic-review-generator/src/quality/checker.py:27-38 | the scan from position i passes iff every later result passed, and then returns the score map |
| Checker.PassedIffAllPassed | synthetic-review-generator/src/quality/checker.py:27-38 | the verdict passes iff every result passed, and then carries the score map |
| Checker.FirstFailureFrom | synthetic-review-generator/src/quality/checker.py:27-33 | the scan reports the first failing result after position i, with its name and score |
| Checker.FirstFailureReported | synthetic-review-generator/src/quality/checker.py:27-33 | when result j is the first failure, the verdict is a failure naming j with j's score |
| Checker.FailureHasFirstIndex | synthetic-review-generator/src/quality/checker.py:27-33 | a failing verdict has a first failing position, and reports it |
| Checker.ScoresKeys | synthetic-review-generator/src/quality/checker.py:37 | the score map's keys are exactly the result names |
| Checker.ScoresOfDistinct | synthetic-review-generator/src/quality/checker.py:37 | with distinct names, each name maps to its own result's score |
| Checker.NamesOfNamed | synthetic-review-generator/src/quality/checker.py:20-25 | the six names are distinct and are exactly the six gate names |
| Checker.NamedVerdict | synthetic-review-generator/src/quality/checker.py:20-38 | for any six gate results, the verdict passes iff all passed, and then maps exactly the six names to their scores |
| Checker.VerdictOfAllGates | synthetic-review-generator/src/quality/checker.py:17-38 | `check_all` passes iff all six gates pass; on success the score map has exactly the six gate names mapped to their scores |
| Checker.FailureIsFirstInOrder | synthetic-review-generator/src/quality/checker.py:20-33 | a failure names the first failing gate in the fixed order, every earlier gate passed, and its score is that gate's score; no score map is returned |
| Checker.LengthFailureWins | synthetic-review-generator/src/quality/checker.py:20-33 | a text failing the length gate is reported as a length failure whatever the other gates say |
| Checker.MissingKeywordsPass | synthetic-review-generator/src/quality/checker.py:25 | a review without `persona_keywords` passes the persona gate with score 0 |
| Checker.EveryGateEvaluated | synthetic-review-generator/src/quality/checker.py:20-25 | each of the six entries is its own gate's result on the candidate, whatever the earlier gates returned, so the realism judge is always consulted |
| Checker.NamedEntries | synthetic-review-generator/src/quality/checker.py:20-25 | the collected list holds the six results in the order they were appended |
| Checker.EvaluateIsNamed | synthetic-review-generator/src/quality/checker.py:20-25 | the collected list is built from the six gate calls on the review's text, rating and keywords |
| Checker.EmptyCorpusScenario | synthetic-review-generator/src/quality/checker.py:17-38 | on an empty corpus a review within the length bounds, the sentiment band and the realism threshold, with no keywords, is accepted |
| Retry.FirstPass | synthetic-review-generator/src/generator/pipeline.py:19-53 | the first passing attempt is located: it passes, all earlier ones fail, and there is none iff every attempt fails |
| Retry.MadeBounds | src/generator.py:93-111 | at most the budget of attempts is made, none after the first passing one |
| Retry.FirstPassIsUnique | synthetic-review-generator/src/generator/pipeline.py:43-53 | a passing attempt preceded only by failures is the first pass |
| Retry.MadeExact | synthetic-review-generator/src/generator/pipeline.py:19-43 | with no pass every allowed attempt is made; otherwise attempts stop at the first passing one |
| Retry.FirstPassSnoc | synthetic-review-generator/src/generator_with_quality.py:174-212 | allowing one more attempt changes the first pass only when none passed before |
| Pipeline.ErrorData | synthetic-review-generator/src/generator/pipeline.py:58-69 | the dict logged when generation raised; Pipeline.AlwaysRaising states the row it yields (title "ERROR", the generator's provider/model, metric "exception", time 0) |
| Pipeline.AttemptRow | synthetic-review-generator/src/generator/pipeline.py:22-69 | the row one attempt logs, on a produced or a raised attempt; Pipeline.RowsNumbered and Pipeline.AlwaysRaising state its columns |
| Pipeline.Rows | synthetic-review-generator/src/generator/pipeline.py:19-70 | the log of m attempts has exactly m rows |
| Pipeline.GenerationPipeline.constructor | synthetic-review-generator/src/generator/pipeline.py:8-13 | the pipeline starts with an empty corpus and reads max_attempts from the thresholds |
| Pipeline.GenerationPipeline.GenerateOne | synthetic-review-generator/src/generator/pipeline.py:15-73 | one log row per attempt made; on the first pass the review joins the corpus and is returned with its attempt number and the checker's scores; if none passes the corpus is unchanged and `RuntimeError` is raised |
| Pipeline.GenerationPipeline.Attempt | synthetic-review-generator/src/generator/pipeline.py:20-69 | one attempt logs exactly one row; it accepts iff the generator produced a review that passes against the corpus as it was, and only then appends it |
| Pipeline.RowsNumbered | synthetic-review-generator/src/generator/pipeline.py:19-67 | logged attempt numbers are 1, 2, ..., m in order, and no row is marked as forced |
| Pipeline.ExhaustedSlot | synthetic-review-generator/src/generator/pipeline.py:19-73 | a slot whose attempts all fail makes exactly max_attempts attempts (none when it is not positive) |
| Pipeline.AlwaysRaising | synthetic-review-generator/src/generator/pipeline.py:58-69 | when generation always raises, every row is failed, "exception", time 0, title "ERROR", with the generator's model |
| Pipeline.AcceptedThenDuplicateRejected | synthetic-review-generator/src/generator/pipeline.py:27-45 | once a review has joined the corpus, a later candidate with the same non-empty token set is rejected when max_jaccard < 1 |
| Storage.WordCount | synthetic-review-generator/src/generator/storage.py:88-89 | the word count column; Storage.WordCountIsLengthScore states its value |
| Storage.MetricColumn | synthetic-review-generator/src/generator/storage.py:100 | `failed_metric if failed_metric else ''`; Storage.RowColumns states the column for a missing, empty and present metric |
| Storage.Row | synthetic-review-generator/src/generator/storage.py:75-106 | the row `log_attempt` writes; Storage.RowColumns and Storage.RowOfReview state its columns |
| Storage.ModelKey | synthetic-review-generator/src/generator/storage.py:62-64 | the provider/model key of a review with "unknown" defaults; Storage.KeysInOrder and Storage.InExactlyOneGroup group by it |
| Storage.RowColumns | synthetic-review-generator/src/generator/storage.py:80-106 | the model column is provider + "/" + model with "unknown" defaults; a missing title is "N/A", a missing rating 0; a None or empty metric is blank; passed is written twice |
| Storage.WordCountIsLengthScore | synthetic-review-generator/src/generator/storage.py:88-89 | the word count is 0 for missing or empty text and otherwise the whitespace-split length, which is the length gate's score |
| Storage.RowOfReview | synthetic-review-generator/src/generator/storage.py:85-89 | a logged review's title, rating and word count come from the review |
| Storage.InGroup | synthetic-review-generator/src/generator/storage.py:61-68 | a group holds only reviews of the input with that key |
| Storage.KeysInOrder | synthetic-review-generator/src/generator/storage.py:60-68 | the group keys are distinct and are exactly the reviews' provider/model keys |
| Storage.OccursOnce | synthetic-review-generator/src/generator/storage.py:66-67 | a key of a list without duplicates occurs once |
| Storage.SizeSumStep | synthetic-review-generator/src/generator/storage.py:68 | one more review adds one to the group sizes of its key |
| Storage.SizesCoverReviews | synthetic-review-generator/src/generator/storage.py:60-68 | when every key is listed once, the group sizes sum to the number of reviews |
| Storage.SizeSumOfNone | synthetic-review-generator/src/generator/storage.py:60 | no reviews give groups of total size 0 |
| Storage.ReviewStorage.constructor | synthetic-review-generator/src/generator/storage.py:75-106 | a new store has an empty attempt log |
| Storage.ReviewStorage.LogAttempt | synthetic-review-generator/src/generator/storage.py:75-106 | exactly one row is appended to the log, and nothing else changes |
| Storage.ReviewStorage.SaveAllReviews | synthetic-review-generator/src/generator/storage.py:59-68 | the groups are keyed provider/model in first-seen order, each holds exactly that key's reviews in input order, and their sizes sum to the number of reviews |
| Storage.AddToGroup | synthetic-review-generator/src/generator/storage.py:62-68 | one loop iteration keeps the grouping of the prefix read so far |
| Storage.NewKeyHasEmptyGroup | synthetic-review-generator/src/generator/storage.py:66-67 | a key not yet seen has an empty group |
| Storage.InExactlyOneGroup | synthetic-review-generator/src/generator/storage.py:61-68 | each review is in its own key's group and in no other |
| Storage.GroupHasMember | synthetic-review-generator/src/generator/storage.py:68 | each review is in its own key's group |
| Storage.GroupKeepsOrder | synthetic-review-generator/src/generator/storage.py:61-68 | a group is the subsequence of the input at exactly the positions holding its key, taken in increasing order of position |
| Generator.MetricOf | src/generator.py:103 | `result.get("failed_metric", "")`, blank on a pass; Generator.CallsReportAttempts states the metric each call logs |
| Generator.Call | src/generator.py:96-117 | the `log_attempt` call of one attempt; Generator.CallsReportAttempts and Generator.RaisedCalls state its arguments |
| Generator.SlotResult | src/generator.py:93-119 | what a slot returns; Generator.SlotResultIsFirstPass states that it is the first passing attempt's review |
| Generator.Run | src/generator.py:121-138 | the reviews accepted and calls made by the first slots of `generate_all`; Generator.CorpusOnlyPassed states what the corpus holds |
| Generator.Calls | src/generator.py:93-117 | m attempts make exactly m `log_attempt` calls |
| Generator.ReviewGenerator.constructor | src/generator.py:90 | the generator starts with no logged calls and the configured retry budget |
| Generator.ReviewGenerator.GenerateOneWithQuality | src/generator.py:88-119 | one logged call per attempt made, including raised ones; the first passing review is returned, or None after max_regeneration_attempts |
| Generator.ReviewGenerator.Attempt | src/generator.py:94-117 | one attempt makes exactly one logged call, and returns its review iff it passed |
| Generator.ReviewGenerator.GenerateAll | src/generator.py:121-148 | slot i runs against the reviews accepted before it; the clean list is the 5-field projection of the corpus; success_count + skipped_count = count |
| Generator.ReviewGenerator.NextSlot | src/generator.py:128-138 | one slot extends the corpus, log and clean list as the specification says, keeping the projection |
| Generator.ForcedOnlyOnFirst | src/generator.py:91-97 | a forced bad prompt is used only on attempt 1, and only when the slot's flag is set |
| Generator.CallsReportAttempts | src/generator.py:101-108 | each call records its slot and attempt, is passed iff the attempt passed, with a blank metric on a pass and the checker's metric on a failure |
| Generator.RaisedCalls | src/generator.py:113-117 | a raised attempt is logged as model "error", title "ERROR", failed, "exception", time 0 |
| Generator.SlotResultIsFirstPass | src/generator.py:93-119 | a slot returns a review iff an attempt passes, and then it is the first passing attempt's review, which passed against the corpus given |
| Generator.CorpusOnlyPassed | src/generator.py:127-131 | every corpus review passed the check against exactly the reviews accepted before it, at most one per slot |
| Generator.CountsAddUp | src/generator.py:143-147 | 0 <= success_count <= count and skipped_count = count - success_count >= 0 |
| QualityGenerator.LowQualityForced | synthetic-review-generator/src/generator_with_quality.py:172-175 | the forced flag of an attempt; QualityGenerator.RowsReport states that it is set exactly on the first attempt of a slot whose index is a multiple of 5 |
| QualityGenerator.Row | synthetic-review-generator/src/generator_with_quality.py:183-205 | the CSV row written for a checked review; QualityGenerator.RowsReport states its columns |
| QualityGenerator.SlotOutcome | synthetic-review-generator/src/generator_with_quality.py:174-221 | how `generate_one` ends; QualityGenerator.SlotOutcomeCases states its cases |
| QualityGenerator.Slot | synthetic-review-generator/src/generator_with_quality.py:174-221 | `generate_one` after its first m attempts; QualityGenerator.SlotIsFirstStop ties it to SlotOutcome |
| QualityGenerator.Run | synthetic-review-generator/src/generator_with_quality.py:227-250 | the sweep of `generate_all` over the first slots; QualityGenerator.RunOnlyPassed and QualityGenerator.RaisedStays state what it keeps |
| QualityGenerator.Step | synthetic-review-generator/src/generator_with_quality.py:234-250 | one slot of the sweep; QualityGenerator.StepOnlyPassed states what it adds |
| QualityGenerator.ReviewGenerator.constructor | synthetic-review-generator/src/generator_with_quality.py:160-166 | the generator starts with no CSV rows |
| QualityGenerator.ReviewGenerator.GenerateOne | synthetic-review-generator/src/generator_with_quality.py:160-221 | the slot's rows are appended and the outcome is the first passing review, None after max_retries failures, or the generator's exception |
| QualityGenerator.ReviewGenerator.Attempt | synthetic-review-generator/src/generator_with_quality.py:174-212 | one attempt: a raised generator call propagates without a row, otherwise exactly one row is written and the review returned iff it passed |
| QualityGenerator.ReviewGenerator.GenerateAll | synthetic-review-generator/src/generator_with_quality.py:227-250 | slot i runs against `final_reviews` so far; only returned reviews are appended; the clean list is their 5-field projection; an exception ends the run |
| QualityGenerator.ReviewGenerator.NextSlot | synthetic-review-generator/src/generator_with_quality.py:233-250 | one slot extends the corpus, rows and clean list as the specification says |
| QualityGenerator.SlotStays | synthetic-review-generator/src/generator_with_quality.py:207-212 | once a slot has stopped, more allowed attempts change nothing |
| QualityGenerator.SlotIsFirstStop | synthetic-review-generator/src/generator_with_quality.py:174-221 | the loop's result is determined by the first attempt that stops it |
| QualityGenerator.StoppedSlotAgrees | synthetic-review-generator/src/generator_with_quality.py:207-212 | after the stopping attempt, the slot's result stays fixed |
| QualityGenerator.RunningSlotAgrees | synthetic-review-generator/src/generator_with_quality.py:174-218 | while no attempt has stopped the slot, the next attempt decides it |
| QualityGenerator.StopsGrow | synthetic-review-generator/src/generator_with_quality.py:174 | allowing one more attempt appends its stop flag |
| QualityGenerator.RaisedStays | synthetic-review-generator/src/generator_with_quality.py:233-238 | once an exception has ended the run, later slots change nothing |
| QualityGenerator.RowsReport | synthetic-review-generator/src/generator_with_quality.py:172-205 | every attempt writes one row numbered 1, 2, ...; review_passed_quality equals passed; the metric is None exactly on a pass and the checker's otherwise; only the first attempt of every fifth slot is forced |
| QualityGenerator.SlotOutcomeCases | synthetic-review-generator/src/generator_with_quality.py:164-221 | a slot raises exactly when an attempt raises before any passes; otherwise it returns the first passing review, or None when all attempts produced failing reviews |
| QualityGenerator.RunOnlyPassed | synthetic-review-generator/src/generator_with_quality.py:233-242 | `final_reviews` only receives reviews that passed against the reviews before them, at most one per slot, with at most max_retries rows per slot |
| QualityGenerator.StepOnlyPassed | synthetic-review-generator/src/generator_with_quality.py:234-242 | one slot adds at most one review, which passed against the corpus before it |
| QualityGenerator.RowsAtMost | synthetic-review-generator/src/generator_with_quality.py:190-205 | each attempt writes at most one row |
| Core.KeyMissing | synthetic-review-generator/src/generator/core.py:19-25 | the `if not api_key` test on the environment key (absent or empty); Core.ConstructionSucceeds states that construction fails exactly then for a known provider |
| Core.NewGenerator | synthetic-review-generator/src/generator/core.py:9-30 | the constructor's provider and key checks; Core.ConstructionSucceeds states when it succeeds |
| Core.ConstructionSucceeds | synthetic-review-generator/src/generator/core.py:9-30 | construction succeeds iff the provider is "openai" or "anthropic" with its key set; an unknown provider raises `ValueError` naming it; the temperature defaults to 0.8 |
| Core.BuildPrompt | synthetic-review-generator/src/generator/core.py:32-46 | the persona and rating fields of the prompt; Core.PromptShowsPersona states what the prompt shows |
| Core.PromptShowsPersona | synthetic-review-generator/src/generator/core.py:34-41 | every persona keyword occurs in the ", "-joined terms; the persona type is shown with each "_" as a space and nothing else changed |
| Core.Unfenced | synthetic-review-generator/src/generator/core.py:75-78 | the markdown clean-up of the reply; Core.UnfencedPlain, Core.UnfencedJsonBlock and Core.UnfencedBareBlock state its result |
| Core.CleanFence | synthetic-review-generator/src/generator/core.py:75-78 | the fence cleanup strips backticks and a leading "json" tag |
| Core.UnfencedPlain | synthetic-review-generator/src/generator/core.py:75 | text not starting with three backticks is left unchanged |
| Core.UnfencedJsonBlock | synthetic-review-generator/src/generator/core.py:75-78 | a block fenced by three backticks with a json tag yields its body |
| Core.BackticksOff | synthetic-review-generator/src/generator/core.py:76 | stripping backticks from a json-tagged fenced block leaves "json" and the padded body |
| Core.JsonTagOff | synthetic-review-generator/src/generator/core.py:77-78 | dropping the "json" tag and stripping whitespace leaves the body |
| Core.UnfencedBareBlock | synthetic-review-generator/src/generator/core.py:75-76 | a block fenced by three backticks without a tag yields its body |
| Core.ReviewText | synthetic-review-generator/src/generator/core.py:84 | the review_text f-string; Core.ReviewTextParts states where its three parts sit |
| Core.ReviewTextParts | synthetic-review-generator/src/generator/core.py:84 | review_text is title + ". Pros: " + pros + " Cons: " + cons, each part at its fixed offset |
| Core.Matching | synthetic-review-generator/src/generator/core.py:87-91 | the kept keywords are persona keywords that occur case-insensitively in the text |
| Core.MatchedKeywords | synthetic-review-generator/src/generator/core.py:87-91 | the keyword loop computes Matching, which by Core.MatchingKeepsOrder keeps exactly the keywords occurring case-insensitively, in config order and original case |
| Core.MatchingKeepsOrder | synthetic-review-generator/src/generator/core.py:87-91 | the kept keywords are the subsequence of the persona keywords at exactly the positions whose keyword occurs case-insensitively in the text, in increasing order: every hit is kept, no miss is, and config order is preserved |
| Core.MatchingCount | synthetic-review-generator/src/generator/core.py:87-91 | the filter keeps as many keywords as the persona gate counts |
| Core.MatchingAllHit | synthetic-review-generator/src/generator/core.py:87-91 | the persona gate counts every kept keyword |
| Core.PersonaGateOnMatched | synthetic-review-generator/src/generator/core.py:102 | on a generated review the persona gate passes iff no keyword matched or at least min_matches did, and scores their number |
| Core.Generate | synthetic-review-generator/src/generator/core.py:48-109 | a provider other than "openai" or "anthropic", a failed call or a failed parse becomes an error; otherwise the review is built from the stripped, unfenced reply and returned with the duration |
| Core.ReviewOf | synthetic-review-generator/src/generator/core.py:84-104 | the review dict `generate` builds; Core.ReviewOfFields states its fields |
| Core.ReviewOfFields | synthetic-review-generator/src/generator/core.py:94-104 | the rating is passed through, the model is provider + "/" + model, the provider is recorded, and only matched keywords are listed |
| QualityReport.Avg | src/reports.py:31-32 | the average of an empty list is 0 |
| QualityReport.Min | src/reports.py:170 | the minimum is a value of the list and at most every value |
| QualityReport.Max | src/reports.py:171 | the maximum is a value of the list and at least every value |
| QualityReport.AvgBetween | src/reports.py:169-171 | the average lies between the minimum and the maximum |
| QualityReport.MeanBetween | src/reports.py:32 | a mean of values within bounds lies within them |
| QualityReport.SumBetween | src/reports.py:32 | a sum of n values within bounds lies between n times the bounds |
| QualityReport.Reals | src/reports.py:95-97 | the integer word counts are taken as reals of the same value |
| QualityReport.IsPassed | src/reports.py:62 | `row["passed"].lower() == "true"`; QualityReport.PassedIgnoresCase states which cells count as passed |
| QualityReport.MetricOf | src/reports.py:67 | `row.get("failed_metric", "unknown")`; QualityReport.FailureCounts states that each failed row is counted under it |
| QualityReport.Scan | src/reports.py:52-68 | the counters after reading the rows in order; QualityReport.ScanCounts, QualityReport.ScanIds and QualityReport.FailureCounts state them |
| QualityReport.Summarize | src/reports.py:52-68 | the reading loop computes the counters of the rows read |
| QualityReport.ScanCounts | src/reports.py:57-68 | attempts = rows = passed + failed reasons; ratings and word_counts have one entry per passed row; failures are tallied by reason |
| QualityReport.ScanIds | src/reports.py:59-70 | the review ids are the distinct review_index values, at most one per row |
| QualityReport.FailureCounts | src/reports.py:66-68 | each failure is counted under its reason, and attempts = passed + the sum of the failure counts |
| QualityReport.Report | src/reports.py:70-106 | the figures computed from the counters; QualityReport.ReportFigures and QualityReport.PassesAtMostReviews state them |
| QualityReport.GenerateQualityReport | src/reports.py:43-106 | the report's figures are those of the counters |
| QualityReport.ReportFigures | src/reports.py:52-106 | attempts = passed + failures; total_reviews <= attempts; skipped = total_reviews - passed; no rows give rate 0; metrics appear iff something passed; failures are listed by non-increasing count, with the tallied counts |
| QualityReport.PassedIgnoresCase | src/reports.py:62 | "True" and "TRUE" count as passed and "1" does not |
| QualityReport.PassesAtMostReviews | src/reports.py:70-72 | when no review index passes twice, skipped >= 0 and the success rate lies in [0, 100] |
| QualityReport.RateAtMost100 | src/reports.py:72 | passed / total * 100 lies in [0, 100] when passed <= total |
| QualityReport.PassedIdsMembers | src/reports.py:60-63 | the ids of passed rows are the review indices of those rows |
| QualityReport.PassedIdsInReviewIds | src/reports.py:60-63 | the ids of passed rows are among the review ids |
| QualityReport.PassedIdsCount | src/reports.py:62-63 | when no index passes twice, the passes equal the number of passed ids |
| QualityReport.Ratings | src/reports.py:163 | one rating per review, in order |
| QualityReport.WordCounts | src/reports.py:164 | one whitespace-split word count per review, in order |
| QualityReport.Titles | src/reports.py:165 | one title per review, in order |
| QualityReport.Analyze | src/reports.py:162-176 | `analyze(reviews)` before rounding; QualityReport.AnalyzeFigures states its figures |
| QualityReport.AnalyzeFigures | src/reports.py:162-176 | count = number of reviews; an empty list gives 0 everywhere; means lie between minima and maxima, which are a review's values; the title words are the ten most frequent (all, when fewer distinct), each once with its real count, most frequent first, none left out more frequent than the last listed, and ties in first-seen order |
| RunReport.IsTrue | synthetic-review-generator/src/generator/reports.py:11-13 | the exact comparison with "True"; RunReport.OnlyExactTrue states that no other spelling counts |
| RunReport.HasMetric | synthetic-review-generator/src/generator/reports.py:15 | `if r["failed_metric"]:`, a present non-empty cell; RunReport.MetricsNonEmpty and RunReport.ByMetricCounts state which rows are tallied |
| RunReport.Tallied | synthetic-review-generator/src/generator/reports.py:4-16 | the four counters after reading the rows in order; RunReport.TalliedCounts and RunReport.ByMetricCounts state them |
| RunReport.GenerateReport | synthetic-review-generator/src/generator/reports.py:4-16 | the row loop computes the report's counters |
| RunReport.TalliedCounts | synthetic-review-generator/src/generator/reports.py:9-16 | total = number of rows; passed and forced_fail count the exact "True" cells and are at most total; by_metric tallies the non-empty metrics, at most total of them |
| RunReport.ByMetricCounts | synthetic-review-generator/src/generator/reports.py:15-16 | each metric is counted once per row naming it, empty metrics never, and the counts sum to at most total |
| RunReport.MetricsNonEmpty | synthetic-review-generator/src/generator/reports.py:15 | rows with an empty failed_metric are not counted |
| RunReport.OnlyExactTrue | synthetic-review-generator/src/generator/reports.py:11-13 | only the exact, case-sensitive "True" counts |
| RunReport.ReadBackAll | synthetic-review-generator/src/generator/reports.py:8-9 | one record per CSV row, in order |
| RunReport.ReportOfQualityLog | synthetic-review-generator/src/generator/reports.py:9-16 | on the quality loop's CSV, passes are the rows written as passed and the metric counts add up to the failed rows |
| RunReport.ReadBackCounts | synthetic-review-generator/src/generator/reports.py:11-16 | read back, passed rows count as "True" and every failed row names its metric |
| Tally.Bump | src/reports.py:68 | `d[k] = d.get(k, 0) + 1`; Tally.BumpCounts states its effect |
| Tally.Count | src/reports.py:66-68 | counting a list by repeated bumps, as the loop and `Counter` do; Tally.CountIsOccurrences states the counts |
| Tally.SortDesc | src/reports.py:105 | Python's stable sort by count, largest first; Tally.SortDescSorts states that it is sorted, a permutation and stable |
| Tally.Keys | src/reports.py:68 | the keys of the counting dict, in order |
| Tally.BumpCounts | src/reports.py:68 | `d[k] = d.get(k, 0) + 1` adds one to k's count and to the total, keeps keys distinct, and puts a new key last |
| Tally.CountIsOccurrences | src/reports.py:66-68 | counting lists each value once with its number of occurrences, and the counts add up to the length |
| Tally.SortDescSorts | src/reports.py:105 | sorting by count is non-increasing, a permutation, and stable among equal counts |
| Tally.InsertIsPermutation | src/reports.py:105 | insertion keeps every item |
| Tally.InsertSorted | src/reports.py:105 | insertion keeps the list sorted |
| Tally.InsertStable | src/reports.py:105 | insertion puts an item ahead of the items of its own count |
| Tally.TailNonIncreasing | src/reports.py:105 | the tail of a sorted list is sorted |
| Tally.HeadNotInWithCount | src/reports.py:105 | a head of a different count does not affect the items of a count |
| Tally.MostCommon | src/reports.py:175 | at most n entries are returned |
| Tally.MostCommonIsTop | src/reports.py:175 | the most common entries are sorted by count, list each value once with its real count, number min(n, distinct values), leave out no value more frequent than the last one kept, and keep equal counts in first-seen order |
| Tally.EntryOfDistinct | src/reports.py:68 | an entry of a distinct table is its key with that key's count |
| Tally.KeysOfTail | src/reports.py:68 | when the first entry is not the bumped key, no later entry of the bump has its key |
| Score.ScoreReview | synthetic-review-generator/src/generator/quality.py:1-11 | the score is one of 0, 0.2, 0.4, 0.6, 0.8, 1.0, lies in [0, 1], is 1 iff all three length criteria hold and 0 iff none does |
| Score.BothSidesIffHigh | synthetic-review-generator/src/generator/quality.py:4-7 | the score is at least 0.8 iff both pros and cons exceed 10 words |
| Score.TitleAddsTwoTenths | synthetic-review-generator/src/generator/quality.py:8-9 | a title of more than 3 words adds exactly 0.2, independently of the other criteria |
| Score.ProsLimitIsStrict | synthetic-review-generator/src/generator/quality.py:4 | exactly 10 pros words add nothing |
| Config.LoadConfig | synthetic-review-generator/src/utils/config.py:5-23 | `load_config` with file existence and the parsed document as inputs; Config.MissingFileFirst and Config.LoadedIffComplete state its result |
| Config.FirstMissing | synthetic-review-generator/src/utils/config.py:19-21 | the first required field missing from the config, or none iff all are present |
| Config.MissingFileFirst | synthetic-review-generator/src/utils/config.py:9-10 | a nonexistent path raises before any field check |
| Config.LoadedIffComplete | synthetic-review-generator/src/utils/config.py:16-23 | the config is returned unchanged iff all seven fields are present; otherwise the error names the first missing one in the listed order |
| Config.ExtraKeysIgnored | synthetic-review-generator/src/utils/config.py:13-23 | adding a key that is not required changes neither the verdict nor the error |
| Config.SameFirstMissing | synthetic-review-generator/src/utils/config.py:19-21 | the reported field depends only on which required fields are present |
| Text.WordLen | synthetic-review-generator/src/quality/length.py:8 | the leading word of a string ends at its first whitespace |
| Text.LeadLen | synthetic-review-generator/src/generator/core.py:76-78 | `strip` drops exactly the leading run of stripped characters |
| Text.TrailStart | synthetic-review-generator/src/generator/core.py:76-78 | `strip` drops exactly the trailing run of stripped characters |
| Text.Strip | synthetic-review-generator/src/generator/core.py:61-78 | the result is the input without its leading and trailing stripped characters |
| Text.StripOfPadded | synthetic-review-generator/src/generator/core.py:76-78 | stripping padding around a body that neither starts nor ends with padding gives the body |
| Text.PrefixOfConcat | synthetic-review-generator/src/generator/core.py:75-77 | `startswith` holds on a concatenation's first part, and slicing it off leaves the rest |
| Text.LowerCharIdempotent | synthetic-review-generator/src/quality/utils.py:11 | lower-casing a character twice is lower-casing it once |
| Text.LowerIsLower | synthetic-review-generator/src/quality/utils.py:11 | the lower-cased string is lower case, and lower-casing it again changes nothing |
| Text.LowerOfLower | synthetic-review-generator/src/quality/persona.py:14 | a lower-case string is its own lower-case form |
| Text.WordsAreWords | synthetic-review-generator/src/quality/utils.py:11 | `split()` yields non-empty, whitespace-free words made of the string's characters |
| Text.WordLenOfWordThenSpace | synthetic-review-generator/src/quality/length.py:8 | a word followed by whitespace or the end is one leading word |
| Text.WordsOfWord | synthetic-review-generator/src/quality/length.py:8 | a single word splits into itself |
| Text.WordsOfJoin | src/reports.py:175 | splitting space-joined words gives the words back |
| Text.JoinIsLower | synthetic-review-generator/src/quality/utils.py:11 | joining lower-case words with spaces gives a lower-case string |
| Text.JoinContains | synthetic-review-generator/src/generator/core.py:34 | every joined item occurs in the joined string |

## Left out

- File and console I/O is out of the model. This covers the JSON dumps of `save_all_reviews`, the CSV file handling and header of `log_attempt`, the markdown text of both reports, the charts and the log lines. The model covers the values these write: rows, groups, counters.
- Timestamps, wall-clock timing and `round(..., 2)` are out of the model. Durations are inputs, the logged generation time is the given value, and the report averages, the success rate `passed / total_reviews * 100` of src/reports.py:72 and `score_review` are exact reals, not rounded floats.
- Randomness becomes parameters. `random.random() < 0.10` is the boolean `forceBadFirst`. Configuration-weighted choices of model, persona and rating are not part of the model; their callers pass a generator, a persona and a rating.
- Strings follow an ASCII model of Python's `str.split()` (whitespace is space and \t to \r, plus \x1c to \x1f) and `str.lower()` (A to Z only). There is no Unicode case folding.
- Outside libraries become oracles. TextBlob polarity, the sklearn TF-IDF vectorizer and cosine, and the OpenAI realism judge are functions in `Types.Oracles`. The generators' LLM calls are functions from attempt number to an outcome.
- The prompt builder, the API client and the file manager are not part of this model. `generate_one_raw` is the generator outcome function.
- Prompt wording is out of the model. `Core.BuildPrompt` keeps only the variable parts: the audience, rating, perspective and keyword list.
- Core.Generate: `json.loads` and the three key reads are one `parse` oracle. A reply that is not valid JSON, or lacks a key, is an error without modelling JSON syntax.
- Checker.CheckAll: a gate raising an exception inside `check_all` would propagate. The model's checker is total, so a review dictionary missing `rating` or `review_text` (a `KeyError`) is not represented.
- Checker.CheckAll: the three generator classes hold the checker as `check == Retry.Judge(t, o)`, the function `CheckAll` computes, rather than calling the `CheckAll` method.
- QualityGenerator.ReviewGenerator.Attempt: an exception raised by the checker itself is not modelled. Only a raising generator call propagates, because the checker is total.
- QualityReport.Summarize: `int(...)` and `float(...)` of the CSV cells and their parse errors are not modelled. The record holds the parsed numbers.
- RunReport.GenerateReport: a row shorter than the header gives None cells, as `csv.DictReader`'s `restval` does. A file without one of the three columns (a `KeyError`) is not modelled.
- Config.LoadConfig models a YAML document as a mapping or empty (where `field not in None` raises). Other YAML values at top level, and YAML parsing, are not modelled.
- The `get_model_by_weight`, `get_persona_by_weight` and `get_rating_by_distribution` helpers of utils/config.py (weighted `random.choices`) are left out as randomness; the chosen model, persona and rating enter as parameters, for instance of Core.Generate.
- QualityGenerator.ReviewGenerator.GenerateAll: the `force_low_quality_for_testing` argument is accepted but unused in the source, so it is not modelled.
- Bias.Check: the widened band bounds `low - tolerance` and `high + tolerance` (bias.py:24) are exact real sums, where the source adds floats. A polarity within float rounding of a widened bound may be decided differently: with band (0.1, 0.8) and tolerance 0.1, Python computes `0.8 + 0.1` as 0.9000000000000001 and passes a polarity of that value, which the model fails.
- Realism.Check: the judge's reply is an `Option<real>`, so `float()` returning nan or inf is not modelled. In the source a nan score fails the gate, because `nan >= min_score` is False (realism.py:28); so Realism.FailsOnlyOnLowScore's "errors never block" holds of the model, not of a nan reply. Scores and thresholds are exact reals, so float rounding in the comparison is not modelled either.
- QualityUtils.Jaccard: the division `intersection / union` (utils.py:17) is exact real division, not floating point, and so are the threshold comparisons made on its value in the diversity gate. A similarity that rounds to exactly the threshold in floating point may be decided differently.
