# KBA scorer model

A Dafny model of the scoring core of the TREC KBA scorers (kba-scorer). The model covers four parts.

- **CCR scorer** (`scorer/ccr.py`), module `Ccr`:
  - loading assessor judgments into a `(stream_id, target_id) -> bool` annotation, using a rating threshold under which any low rating wins;
  - the confusion-matrix sweep of a run over the cutoff ladder `range(0, 999, step)` (module `Ladder`), with FN back-filled from the annotation's positives;
  - the run's description and the target `reject` predicate.
- **SSF cascade** (`scorer/ssf.py`):
  - `SsfTruth`: inverting the truth data into an index and counting positives per mode;
  - `SsfDocs`, `SsfMatrix`, `SsfOverlap`, `SsfFills`, `SsfHours`: the DOCS, OVERLAP, FILLS and DATE_HOURS stages with `increment_CM` and `correct_FN`;
  - `SsfDescription`: the run's description.
- **Metrics** (`scorer/_metrics.py`), module `Metrics`: precision, recall, F, scaled utility and median over exact reals; the per-cell compilation; micro and macro averaging; the maxima over cutoffs.
- **KBA 2014 SSF profile comparison** (`scorer2/metrics.py`, `scorer2/ssf.py`, `scorer_2/profile.py`):
  - `Kernels`: the counter kernels;
  - `Profiles`: the `ComparableProfile` class, with both variants of `compare`;
  - `ProfileBuilders`: building profiles from truth data and from run rows;
  - `Spans`: run configurations, offsets, spans and stream-item paths;
  - `ProfileScoring`: both `score_run` functions.

`Text` gives the Python string operations the scorers use over `seq<char>`. `Sums` and `Sets` give sums over finite sets and choice from a set, which stand in for Python's dict iteration in any order.

## How this code is modelled

The file readers become parameters:
- run and judgment files are sequences of lines or rows;
- the truth JSON is nested maps;
- the stream-item chunks are a map from path to `clean_visible` text;
- whether a text decodes as UTF-8 is a predicate.

State is modelled in the form the code uses:
- Stages that rebuild a confusion matrix take and return it as a map.
- Loops are methods with invariants, proved against specification functions.
- `ComparableProfile` is a class whose methods update its `slots` field.
- `compare` pads the other profile's `slots`, the way the defaultdict does, and its contract says so.

Python exceptions (`IndexError`, `KeyError`, `ValueError` from `int()` or `float()`, a failed `assert`) become `Failure` results. The contracts state exactly when each happens, within the limits of `int(float())` listed under "## Left out".

## Behaviour modelled as written

Where the code and its written description disagree, the model follows the code:

- **Macro F:** macro averaging averages each target's F directly (`_metrics.py:134-144`). Only `find_max_scores` computes an F from the averaged P and R, as `F_recomputed` (`_metrics.py:172-175`).
- **find_max_scores** takes each metric's maximum over the cutoffs independently. It does not report the P and R of the best F (`_metrics.py:158-177`).
- **increment_CM** writes `CM[DOCS]` whatever its mode, so the matrices of the later stages stay empty. Its `unannotated_is_TN` branch cannot be reached (`ssf.py:203-234`). The record lists are what those stages really produce.
- **OVERLAP and DATE_HOURS** pass the TP flag where the target id belongs (`ssf.py:280`, `289`, `386`).
- **OVERLAP** emits a record whether or not the spans overlap.
- **Training cut-off dates:** in `ccr.py`, run rows are skipped as training up to the end of February 2012 (1330559999), but positives are excluded only up to the end of 2011 (1325375999). `Ccr.TrainingGapCountsAsMissed` states the effect: a True key in the gap counts as a positive that no run row can match.
- **sokalsneath's second loop** tests sc2's keys against sc2 itself, so `bnota` is always 0 (`scorer2/metrics.py:41-46`).

## Model

| member | source | states |
|---|---|---|
| Metrics.Precision | src/kba/scorer/_metrics.py:24-32 | precision is TP/(TP+FP) when TP+FP > 0 (stated as p·(TP+FP) = TP), 0.0 otherwise, and lies in [0, 1] for non-negative counts |
| Metrics.Recall | src/kba/scorer/_metrics.py:34-42 | recall is TP/(TP+FN) when TP+FN > 0, 0.0 otherwise, and lies in [0, 1] for non-negative counts |
| Metrics.FScore | src/kba/scorer/_metrics.py:44-51 | F is 0.0 when P+R ≤ 0, otherwise F·(P+R) = 2·P·R |
| Metrics.FScoreBetween | src/kba/scorer/_metrics.py:44-51 | for P and R in [0, 1], F lies in [0, 1] and between min(P, R) and max(P, R) |
| Metrics.HarmonicBetween | src/kba/scorer/_metrics.py:48-49 | any f with f·(lo+hi) = 2·lo·hi lies between lo and hi |
| Metrics.NormalizedUtility | src/kba/scorer/_metrics.py:60-62 | the normalised utility times 2(TP+FN) is 2·TP − FP |
| Metrics.ScaledUtility | src/kba/scorer/_metrics.py:53-65 | 0.0 when TP+FN ≤ 0; otherwise SU·(1 − MinNU) = max(NU, MinNU) − MinNU; callers must not pass MinNU = 1 when TP+FN > 0 (Python would divide by zero) |
| Metrics.NormalizedUtilityAtMostOne | src/kba/scorer/_metrics.py:60-62 | NU ≤ 1 for non-negative counts, with equality exactly when FP = FN = 0 |
| Metrics.RatioAtMostOne | src/kba/scorer/_metrics.py:62 | a/b ≤ 1 for 0 < b and a ≤ b, with equality exactly when a = b |
| Metrics.ScaledUtilityInUnit | src/kba/scorer/_metrics.py:53-65 | SU lies in [0, 1] for non-negative counts and MinNU < 1 |
| Metrics.ScaledUtilityFloor | src/kba/scorer/_metrics.py:63 | SU is 0 whenever NU ≤ MinNU (the max clamps it) |
| Metrics.ScaledUtilityPerfect | src/kba/scorer/_metrics.py:53-65 | SU = 1 exactly when TP > 0, FP = 0 and FN = 0 |
| Metrics.ScoreOfInUnit | src/kba/scorer/_metrics.py:82-96 | P, R, F and SU of a cell with non-negative counts all lie in [0, 1] |
| Metrics.InsertSorted | src/kba/scorer/_metrics.py:15 | inserting into a sorted list keeps it sorted and adds exactly that value |
| Metrics.SortReals | src/kba/scorer/_metrics.py:15 | `sorted` returns a sorted permutation of its input |
| Metrics.Median | src/kba/scorer/_metrics.py:9-21 | no median exactly for the empty list (where the indexing raises); otherwise the median is at least one input value and at most another |
| Metrics.MiddleBetween | src/kba/scorer/_metrics.py:16-21 | the middle element (or mean of the two middle elements) of a sorted permutation lies between input values |
| Metrics.SortedUnique | src/kba/scorer/_metrics.py:15 | two sorted lists with the same values are equal, so `sorted` does not depend on input order |
| Metrics.MedianPermutation | src/kba/scorer/_metrics.py:9-21 | the median of a list does not depend on the order of its elements |
| Metrics.RowScoresInUnit | src/kba/scorer/_metrics.py:78-96 | every score computed for a row of non-negative cells lies in [0, 1] |
| Metrics.ScoreRow | src/kba/scorer/_metrics.py:78-96 | the inner loop over the cutoffs of one target yields, for each cutoff, the P, R, F and SU of its cell |
| Metrics.PerformanceMetrics | src/kba/scorer/_metrics.py:67-97 | `performance_metrics` keeps exactly the targets of CM and scores every cell of each |
| Metrics.FlipKeys | src/kba/scorer/_metrics.py:114-117 | a flipped matrix has as keys exactly the cutoffs, each holding exactly the targets that have that cutoff |
| Metrics.Flip | src/kba/scorer/_metrics.py:114-117 | the flip loop swaps target and cutoff: f[c][t] = m[t][c] and nothing else |
| Metrics.FlipTarget | src/kba/scorer/_metrics.py:116-117 | the inner loop moves every cutoff of one target into the flipped map |
| Metrics.CellSumRemove | src/kba/scorer/_metrics.py:123-125 | the per-cutoff sum over targets is independent of visiting order: any target can be taken out first |
| Metrics.ScoreSumRemove | src/kba/scorer/_metrics.py:138-140 | the same order independence for summed scores |
| Metrics.SumCells | src/kba/scorer/_metrics.py:122-125 | the loop over the targets of one cutoff adds up their cells |
| Metrics.TotalCells | src/kba/scorer/_metrics.py:119-125 | `CM_total` has, at each cutoff, the sum of the cells of the targets having that cutoff |
| Metrics.SumScores | src/kba/scorer/_metrics.py:136-140 | the loop over the targets of one cutoff adds up their scores |
| Metrics.SumPerCutoff | src/kba/scorer/_metrics.py:135-140 | one sum per cutoff of the flipped scores, over the targets having that cutoff |
| Metrics.MacroAverageOf | src/kba/scorer/_metrics.py:134-144 | macro averaging: the per-cutoff sums divided by the number of targets (all of them, not only those with that cutoff) |
| Metrics.DivideAll | src/kba/scorer/_metrics.py:142-144 | every summed metric divided by len(Scores) |
| Metrics.FullRunMetrics | src/kba/scorer/_metrics.py:100-155 | returns the summed matrix, and either the macro average of Scores or the metrics of the summed matrix under micro averaging |
| Metrics.CellSumNonNeg | src/kba/scorer/_metrics.py:122-125 | summing non-negative cells gives a non-negative cell |
| Metrics.CellSumFnTp | src/kba/scorer/_metrics.py:122-125 | if FN + TP is each target's positive count, the summed FN + TP is the sum of those counts |
| Metrics.TotalFnTp | src/kba/scorer/_metrics.py:119-125 | at each cutoff of CM_total, FN + TP is the sum of the positives of the targets having that cutoff |
| Metrics.MicroAverageInUnit | src/kba/scorer/_metrics.py:149-152 | micro-averaged metrics of a non-negative matrix lie in [0, 1] |
| Metrics.ScoreSumBounds | src/kba/scorer/_metrics.py:138-140 | summing n scores from [0, 1] gives each metric in [0, n] |
| Metrics.DivideInUnit | src/kba/scorer/_metrics.py:144 | dividing a value in [0, n] by m ≥ n > 0 gives a value in [0, 1] |
| Metrics.MacroAverageInUnit | src/kba/scorer/_metrics.py:134-144 | macro averages of scores in [0, 1] lie in [0, 1], since at most len(Scores) targets contribute to a cutoff |
| Metrics.MaxOverCutoffs | src/kba/scorer/_metrics.py:169-170 | Python `max` over one target's cutoffs: the value of some cutoff, and at least that of every cutoff |
| Metrics.BestOf | src/kba/scorer/_metrics.py:167-170 | one target's maxima of P, R, F and SU, each taken independently over the cutoffs |
| Metrics.AllBest | src/kba/scorer/_metrics.py:166-170 | fails (max of an empty list) exactly when some target has no cutoffs; otherwise every target gets its maxima |
| Metrics.FindMaxScores | src/kba/scorer/_metrics.py:158-177 | `NoCutoffs` exactly when some target has no cutoffs; `NoAverage` exactly when all do but there is no 'average' entry; otherwise the maxima of every target and the maximum over cutoffs of F recomputed from the averaged P and R |
| Ccr.RejectCases | src/kba/scorer/ccr.py:370-378 | `reject` refuses a target exactly when it is a twitter.com target under --reject-twitter, a wikipedia.org target under --reject-wikipedia, or outside the accepted set when a group or entity type is given |
| Ccr.Threshold | src/kba/scorer/ccr.py:190-195 | the threshold is 0 exactly with include_neutral, 1 exactly with include_useful alone, 2 otherwise |
| Ccr.ThresholdAdmits | src/kba/scorer/ccr.py:190-206 | a vital rating always passes; a useful one with either flag; a neutral one only with include_neutral; a negative rating never |
| Ccr.ClassifyRowMeaning | src/kba/scorer/ccr.py:165-188 | a judgment row is malformed exactly when `row[0][0]`, `int(row[5])` or, for 12 columns, `int(row[11])` would raise; a '#' row is a comment; a kept row has the key (row[2], row[3]) and rating int(row[5]) and passes the length and reject filters; an excluded row fails one of them |
| Ccr.Classified | src/kba/scorer/ccr.py:165 | one classification per judgment row, in order |
| Ccr.FoldFailureSticks | src/kba/scorer/ccr.py:165-206 | once a row has raised, later rows change nothing |
| Ccr.CountTrue | src/kba/scorer/ccr.py:208 | `num_true` is the number of keys labelled True |
| Ccr.LoadAnnotation | src/kba/scorer/ccr.py:153-212 | `load_annotation` returns the annotation index built from the rows, fails at the first malformed row, and fails when no key is True (`sys.exit`) |
| Ccr.FoldFailure | src/kba/scorer/ccr.py:165-206 | loading succeeds exactly when every row classifies; a failure names the first row that does not |
| Ccr.FoldKeys | src/kba/scorer/ccr.py:200-206 | the index holds exactly the keys of kept rows |
| Ccr.FoldLabels | src/kba/scorer/ccr.py:200-206 | a key is True exactly when none of its kept rows is rated below the threshold: one low rating turns it False for good |
| Ccr.AnnotateMeaning | src/kba/scorer/ccr.py:165-206 | the same three facts stated on the judgment rows themselves |
| Ccr.FoldSameElements | src/kba/scorer/ccr.py:200-206 | the index depends only on which judgments occur, not on their order or repetition |
| Ccr.AnnotateOrderIndependent | src/kba/scorer/ccr.py:165-206 | reordering or repeating judgment rows yields the same index (which malformed row is reported may differ) |
| Ccr.AnnotateNoRejected | src/kba/scorer/ccr.py:186-188 | no key of a rejected target enters the index |
| Ccr.ParsedLines | src/kba/scorer/ccr.py:63-72 | one parse per run-file line, in order |
| Ccr.EffectOf | src/kba/scorer/ccr.py:96-126 | a run row is a positive exactly when its key is annotated True, and is ignored exactly when it is unannotated and unannotated rows do not count as negatives |
| Ccr.StepRowShaped | src/kba/scorer/ccr.py:88-91 | every target's row of the matrix keeps one cell per cutoff |
| Ccr.ZeroCells | src/kba/scorer/ccr.py:90-91 | a fresh target gets a zeroed cell at every cutoff |
| Ccr.BumpCells | src/kba/scorer/ccr.py:102-126 | the loop over the cutoffs applies one row's effect to every cell |
| Ccr.ApplyRow | src/kba/scorer/ccr.py:74-126 | the body of the run-file loop for one data row |
| Ccr.PosInAdd | src/kba/scorer/ccr.py:131-139 | counting one more annotation key adds one exactly when it is a kept True key of that target |
| Ccr.PosStep | src/kba/scorer/ccr.py:131-139 | one iteration of the positives loop keeps its invariant |
| Ccr.Positives | src/kba/scorer/ccr.py:130-139 | fails exactly when some annotation key's stream_id has no integer timestamp, since `int()` then raises whatever the training flag; otherwise each target's count is its number of True keys, skipping those at or before the end of 2011 unless training data is included |
| Ccr.PosInAll | src/kba/scorer/ccr.py:131-139 | after all keys, the counts are the positive counts |
| Ccr.FillCells | src/kba/scorer/ccr.py:142-145 | FN := positives − TP in every cell of one target |
| Ccr.FillMatrix | src/kba/scorer/ccr.py:141-145 | the FN back-fill over every target |
| Ccr.SweepFailureSticks | src/kba/scorer/ccr.py:63-72 | once a run line has raised, later lines change nothing |
| Ccr.SweepStep | src/kba/scorer/ccr.py:63-126 | one more line: a malformed line fails, a comment or blank line changes nothing, a data row applies its step |
| Ccr.SweepLines | src/kba/scorer/ccr.py:63-126 | the loop over the run file computes the sweep over the parsed lines |
| Ccr.SweepParsed | src/kba/scorer/ccr.py:63-126 | the same loop over lines already parsed |
| Ccr.ScoreConfusionMatrix | src/kba/scorer/ccr.py:35-151 | `score_confusion_matrix` computes the reference score: cutoff ladder, sweep, positives, FN back-fill |
| Ccr.FilledIsFillFN | src/kba/scorer/ccr.py:141-145 | back-filling from the counted positives is the reference back-fill |
| Ccr.CountNoData | src/kba/scorer/ccr.py:88-126 | a target without data rows has every count zero |
| Ccr.SweepKeys | src/kba/scorer/ccr.py:88-91 | the matrix has exactly the targets of data rows, including rows skipped as training |
| Ccr.SweepShaped | src/kba/scorer/ccr.py:88-91 | every target has a cell at exactly the ladder's cutoffs |
| Ccr.CellStep | src/kba/scorer/ccr.py:102-126 | one row moves a cell exactly as the reference counts of TP, FP and TN grow |
| Ccr.ExpectedSnoc | src/kba/scorer/ccr.py:102-126 | the reference cell after one more line grows each count by whether that line hits it |
| Ccr.StepRowCell | src/kba/scorer/ccr.py:88-126 | a data row bumps its target's cell when it is scored and leaves it otherwise, starting from zero for a new target |
| Ccr.CellAfterLine | src/kba/scorer/ccr.py:63-126 | after any one more line, each cell is the reference cell of the longer prefix |
| Ccr.CellAfterData | src/kba/scorer/ccr.py:88-126 | the same for a data row of that target |
| Ccr.SweepCells | src/kba/scorer/ccr.py:63-126 | every cell of the sweep equals the reference counts of TP, FP and TN over all lines |
| Ccr.SweepMeaning | src/kba/scorer/ccr.py:63-126 | the three sweep facts together |
| Ccr.TPNonIncreasing | src/kba/scorer/ccr.py:104-107 | TP is non-increasing in the cutoff |
| Ccr.NegativesSplit | src/kba/scorer/ccr.py:110-126 | FP + TN counts the same negative rows at every cutoff |
| Ccr.ScoreMeaning | src/kba/scorer/ccr.py:35-151 | scoring fails exactly for step 0 (`range` raises), a malformed run line, or an annotation key without an integer timestamp; otherwise: the targets are those of data rows; each has a cell per cutoff; TP, FP and TN are the reference counts; FN + TP is the target's positives; TP never grows with the cutoff; FP + TN is the same at every cutoff |
| Ccr.ScoreCells | src/kba/scorer/ccr.py:35-151 | the keys and cell facts of ScoreMeaning |
| Ccr.ScoreSpecIs | src/kba/scorer/ccr.py:56-145 | a successful score is the sweep over a valid ladder with FN back-filled |
| Ccr.FillFNMeaning | src/kba/scorer/ccr.py:141-145 | the back-fill keeps every target and cutoff and changes only FN, to positives − TP |
| Ccr.ScoreTPOrder | src/kba/scorer/ccr.py:104-107 | in the scored matrix TP never grows with the cutoff |
| Ccr.ScoreNegatives | src/kba/scorer/ccr.py:110-126 | in the scored matrix FP + TN is the same at every cutoff |
| Ccr.ParseLineData | src/kba/scorer/ccr.py:68-72 | a data row's timestamp is the integer before the first '-' of its stream_id |
| Ccr.TrainingGapCountsAsMissed | src/kba/scorer/ccr.py:82-136 | without training data, a True key timestamped between the end of 2011 and the end of February 2012 is counted as a positive, yet no run row of that stream can be a TP: it can only add to FN |
| Ccr.EntityPart | src/kba/scorer/ccr.py:216-225 | no entity part (the assertion fails) exactly when both reject flags are set and no group is given |
| Ccr.Description | src/kba/scorer/ccr.py:214-245 | the description fails exactly as the entity part does, and otherwise starts with "ccr" |
| Ccr.DescriptionStep | src/kba/scorer/ccr.py:238-243 | the cutoff step reads back with int() from the description's tail |
| Ccr.UsefulWinsInName | src/kba/scorer/ccr.py:190-236 | with both include flags the name says "+useful" while the threshold admits neutral ratings too |
| Ccr.AveragingInName | src/kba/scorer/ccr.py:227-230 | micro and macro averaging never give the same description |
| SsfTruth.RejectCases | src/kba/scorer/ssf.py:459-464 | without either flag no target is rejected; under --reject-twitter every target id holding 'twitter.com' is rejected, under --reject-wikipedia every one holding 'wikipedia.org'; a rejected target holds one of the two |
| SsfTruth.DropRejected | src/kba/scorer/ssf.py:66-69 | the loop popping rejected targets leaves exactly the targets `reject` accepts, each with its slots unchanged |
| SsfTruth.VisitsMeaning | src/kba/scorer/ssf.py:76-85 | the inversion loops visit exactly the (target, slot type, equiv_id, stream_id) combinations of admitted slot types: not excluded by `--slot-type`, and neither SignificantOther nor Children |
| SsfTruth.AssignStep | src/kba/scorer/ssf.py:88 | one assignment `annotation[stream_id][target_id][slot_type][equiv_id] = equiv_class` keeps the index an exact image of the combinations visited |
| SsfTruth.BuildIndex | src/kba/scorer/ssf.py:74-88 | the inverted index holds exactly the visited combinations, each pointing at its class |
| SsfTruth.ClassesMeaning | src/kba/scorer/ssf.py:92-94 | the counting loops visit exactly the (target, slot type, equiv_id) classes of the kept truth, whatever their slot type |
| SsfTruth.TotalRemove | src/kba/scorer/ssf.py:92-104 | the per-target count is independent of the order of the classes |
| SsfTruth.TotalOverlapsDocs | src/kba/scorer/ssf.py:104 | the OVERLAPS count equals the DOCS count |
| SsfTruth.PositivesStep | src/kba/scorer/ssf.py:96-104 | counting one more class keeps every counter equal to the total over the classes counted |
| SsfTruth.PositivesStepAt | src/kba/scorer/ssf.py:96-104 | the same, for one target and one mode |
| SsfTruth.CountClass | src/kba/scorer/ssf.py:96-104 | one class adds 1 to FILLS, its number of distinct stream_ids to DOCS, its number of distinct date_hours to DATE_HOURS, and copies DOCS into OVERLAPS |
| SsfTruth.CountPositives | src/kba/scorer/ssf.py:91-104 | every counter is the total, for that target and mode, over all classes of the kept truth |
| SsfTruth.IndexContents | src/kba/scorer/ssf.py:66-88 | a (stream, target, slot type, equiv_id) entry exists exactly when the truth file has it for an accepted target and an admitted slot type, and it holds the truth file's class |
| SsfTruth.IndexHonest | src/kba/scorer/ssf.py:66-88 | every stored class lists its stream, and no key names a rejected target or an excluded slot type |
| SsfTruth.LoadAnnotation | src/kba/scorer/ssf.py:53-106 | `load_annotation` returns the index described above, with no empty entry, and the positives of the kept truth per target and mode |
| SsfTruth.TotalFills | src/kba/scorer/ssf.py:96 | the FILLS count of a target is its number of classes |
| SsfTruth.PositivesMeaning | src/kba/scorer/ssf.py:91-104 | FILLS positives count a target's classes, OVERLAPS positives equal DOCS positives, and a missing or rejected target has no positives in any mode |
| SsfTruth.TotalAbsent | src/kba/scorer/ssf.py:91-104 | a target absent from the kept truth counts 0 |
| SsfDocs.ParseRunLineMeaning | src/kba/scorer/ssf.py:145-163 | a non-comment, non-blank line with other than 11 fields fails the assertion; '#' and blank lines are skipped; a data line takes stream, target, date_hour, slot type and equiv_id from fields 2, 3, 7, 8 and 9, and conf from field 4 by int(float()) |
| SsfDocs.ParsedRunLines | src/kba/scorer/ssf.py:143-148 | one parse per line, in order |
| SsfDocs.DocsFailureSticks | src/kba/scorer/ssf.py:143-167 | once a line has raised, later lines change nothing |
| SsfDocs.SweepDocs | src/kba/scorer/ssf.py:143-190 | the loop over the run file computes the reference pass |
| SsfDocs.ScoreDocs | src/kba/scorer/ssf.py:109-201 | `score_confusion_matrix_DOCS` computes the reference stage: ladder, pass, FN back-fill and sort by date_hour |
| SsfDocs.HitsMeaning | src/kba/scorer/ssf.py:179-184 | a record is kept exactly when some data row has it and its (stream, target, slot type) is in the index |
| SsfDocs.DocsFoldKeeps | src/kba/scorer/ssf.py:143-190 | the pass keeps exactly the hits, and writes only the DOCS table |
| SsfDocs.DocsFoldFailure | src/kba/scorer/ssf.py:143-167 | the pass fails exactly when some line fails, and names the first one |
| SsfDocs.DocsMeaning | src/kba/scorer/ssf.py:109-201 | the stage fails exactly for step 0 or an unparsable line; otherwise the records returned are the hits sorted by date_hour, a stable permutation; FN + TP is the target's DOCS positives in every cell; the other tables are empty |
| SsfDocs.StrLeTotal | src/kba/scorer/ssf.py:199 | string order, as `sort` compares date_hours, is total |
| SsfDocs.StrLeRefl | src/kba/scorer/ssf.py:199 | string order is reflexive |
| SsfDocs.StrLeTrans | src/kba/scorer/ssf.py:199 | string order is transitive |
| SsfDocs.StrLeAntisym | src/kba/scorer/ssf.py:199 | string order is antisymmetric |
| SsfDocs.WithDateHourAppend | src/kba/scorer/ssf.py:199 | the records of one date_hour in a concatenation are those of each part, in order |
| SsfDocs.WithDateHourNone | src/kba/scorer/ssf.py:199 | a list without that date_hour has none of its records |
| SsfDocs.InsertPerm | src/kba/scorer/ssf.py:199 | inserting adds exactly that record |
| SsfDocs.SortedCons | src/kba/scorer/ssf.py:199 | a record no later than a sorted list, in front of it, is sorted |
| SsfDocs.InsertSorted | src/kba/scorer/ssf.py:199 | inserting into a sorted list keeps it sorted |
| SsfDocs.InsertStable | src/kba/scorer/ssf.py:199 | inserting puts the record after the others of its date_hour |
| SsfDocs.SortMeaning | src/kba/scorer/ssf.py:199 | `DOCS_TPs.sort(key=itemgetter(5))` yields a sorted permutation, and it is stable: each date_hour's records keep their order |
| SsfDocs.SortSorted | src/kba/scorer/ssf.py:199 | the sort's result is sorted |
| SsfDocs.SortPerm | src/kba/scorer/ssf.py:199 | the sort's result is a permutation |
| SsfDocs.SortStable | src/kba/scorer/ssf.py:199 | the sort keeps the order within each date_hour |
| SsfMatrix.IncrementCM | src/kba/scorer/ssf.py:203-234 | `increment_CM` writes only the DOCS table, whatever the mode, exactly as the reference increment describes; the other three tables are unchanged |
| SsfMatrix.IncrementedMeaning | src/kba/scorer/ssf.py:208-222 | other rows are unchanged; the target's row exists afterwards exactly when it did or some cutoff was touched; each touched cutoff gets one tick and every other cell stays |
| SsfMatrix.IncrementedOthers | src/kba/scorer/ssf.py:208-222 | rows of other targets are unchanged |
| SsfMatrix.IncrementedRow | src/kba/scorer/ssf.py:208-222 | the defaultdict creates the target's row exactly when some cutoff is touched |
| SsfMatrix.IncrementedCellKeys | src/kba/scorer/ssf.py:208-222 | the row gains exactly the touched cutoffs |
| SsfMatrix.IncrementedCells | src/kba/scorer/ssf.py:208-222 | each touched cell gets exactly one tick, and the others stay |
| SsfMatrix.TickMeaning | src/kba/scorer/ssf.py:208-222 | a positive adds one TP; a negative adds exactly one of FP (conf above the cutoff) or TN; FN is untouched |
| SsfMatrix.CorrectFN | src/kba/scorer/ssf.py:236-247 | `correct_FN` rewrites only the mode's table, setting FN to positives − TP |
| SsfMatrix.CorrectedMeaning | src/kba/scorer/ssf.py:240-245 | afterwards FN + TP is the target's positives in every cell present; keys, TP, FP and TN are unchanged |
| SsfMatrix.CorrectedEmpty | src/kba/scorer/ssf.py:240-245 | back-filling an empty table is a no-op |
| SsfOverlap.AnyOverlap | src/kba/scorer/ssf.py:270-276 | the loop over offsets finds an overlap exactly when some offset range intersects [start_byte, end_byte] |
| SsfOverlap.Expand | src/kba/scorer/ssf.py:268-287 | one DOCS record yields one record per truth class, in the order visited, each with field 7 set to (run equiv_id, truth equiv_id) |
| SsfOverlap.ExpandRec | src/kba/scorer/ssf.py:268-289 | the loop over one record's classes visits each class once and applies each class's increments in that order |
| SsfOverlap.ClassOnce | src/kba/scorer/ssf.py:279-289 | one class: a negative when no offset overlaps, then a positive |
| SsfOverlap.OrderStep | src/kba/scorer/ssf.py:268 | taking one more class keeps the visiting order a repeat-free enumeration of the classes taken |
| SsfOverlap.RecTableStep | src/kba/scorer/ssf.py:268-289 | one more class appends its step to the record's increments |
| SsfOverlap.OverlapOutStep | src/kba/scorer/ssf.py:261-287 | one more DOCS record appends its expansion to the output |
| SsfOverlap.OverlapTableStep | src/kba/scorer/ssf.py:261-289 | one more DOCS record applies its increments after those of the earlier records |
| SsfOverlap.SweepStep | src/kba/scorer/ssf.py:261-289 | one iteration of the outer loop keeps output and matrix equal to the reference |
| SsfOverlap.SweepOverlap | src/kba/scorer/ssf.py:261-289 | the pass over the DOCS records yields the reference output and increments, for the dict order it took |
| SsfOverlap.ScoreOverlap | src/kba/scorer/ssf.py:250-293 | `score_confusion_matrix_OVERLAP` fails only for step 0; otherwise it yields the reference result for the dict order taken |
| SsfOverlap.DistinctCard | src/kba/scorer/ssf.py:268 | a repeat-free enumeration is as long as the set it enumerates |
| SsfOverlap.OverlapMeaning | src/kba/scorer/ssf.py:261-287 | whatever the dict order, the output has one record per (DOCS record, truth class) pair, and holds exactly those pairs |
| SsfOverlap.OverlapCount | src/kba/scorer/ssf.py:261-287 | the output has one record per (DOCS record, truth class) pair |
| SsfOverlap.OverlapMembers | src/kba/scorer/ssf.py:261-287 | the output holds exactly those pairs |
| SsfOverlap.ExpandMembers | src/kba/scorer/ssf.py:268-287 | one record's expansion holds exactly its pairs with each class |
| SsfOverlap.EmittedSnoc | src/kba/scorer/ssf.py:261-287 | the pairs of a list are those of its front part and those of its last record |
| SsfOverlap.OverlapTableFlagOnly | src/kba/scorer/ssf.py:280-289 | the stage's increments all land in the DOCS row keyed by the `unannotated_is_TN` flag, which the calls pass where a target_id belongs; every other row is unchanged |
| SsfOverlap.RecTableFlagOnly | src/kba/scorer/ssf.py:280-289 | the same for one record |
| SsfOverlap.OverlapLeavesOtherTables | src/kba/scorer/ssf.py:250-293 | FILLS and DATE_HOURS are untouched, and OVERLAPS stays empty |
| SsfOverlap.DocsFeedsOverlap | src/kba/scorer/ssf.py:183-201 | every record DOCS returns carries the run's own equiv_id in field 7, as OVERLAP unpacks it |
| SsfFills.OverlapFeedsFills | src/kba/scorer/ssf.py:284-287 | every record OVERLAP returns carries a (run, truth) pair, as FILLS unpacks it |
| SsfFills.JudgeMeaning | src/kba/scorer/ssf.py:321-344 | the verdict is undecided exactly when neither equiv_id is known, right exactly when the run's id is known with this truth, and wrong when either side is known with another partner |
| SsfFills.RegisterInverse | src/kba/scorer/ssf.py:324-326 | registering a new pair keeps runs_to_true and true_to_runs inverse |
| SsfFills.SweepFills | src/kba/scorer/ssf.py:317-352 | the pass over the OVERLAP records, with the verdict built as the source builds it, yields the reference table and kept records |
| SsfFills.ScoreFills | src/kba/scorer/ssf.py:296-356 | `score_confusion_matrix_FILLS` computes the reference stage |
| SsfFills.JudgeAgrees | src/kba/scorer/ssf.py:321-346 | against dicts registering the kept records, the verdict is not wrong exactly when the pair fits the kept records |
| SsfFills.FillsStepRegistered | src/kba/scorer/ssf.py:317-347 | one record keeps the dicts registering the kept records, and is kept exactly when it fits them |
| SsfFills.FillsFoldKept | src/kba/scorer/ssf.py:317-347 | the pass keeps exactly the reference records, and its dicts are inverse and register exactly the kept pairs |
| SsfFills.KeptRefMeaning | src/kba/scorer/ssf.py:317-347 | the kept records come from the input, are paired, and two of them share the run's equiv_id exactly when they share the truth's |
| SsfFills.FillsMeaning | src/kba/scorer/ssf.py:296-356 | the stage fails only for step 0, and passes on exactly the reference records |
| SsfFills.FillsFoldFlagRows | src/kba/scorer/ssf.py:349-352 | the stage's increments are on target rows only |
| SsfFills.FillsLeavesOtherTables | src/kba/scorer/ssf.py:296-356 | OVERLAPS and DATE_HOURS are untouched, and FILLS stays empty |
| SsfFills.FillsExample | src/kba/scorer/ssf.py:303-307 | with R1 matched to T1 first, R1 with T2 and R2 with T1 are dropped, and R1 with T1 again is kept |
| SsfFills.KeptExample | src/kba/scorer/ssf.py:303-307 | the same for any two distinct runs and truths |
| SsfFills.KeptPattern | src/kba/scorer/ssf.py:324-347 | after a pair, a record sharing only its run or only its truth is dropped, and the same pair again is kept |
| SsfFills.KeptDropsTwo | src/kba/scorer/ssf.py:324-347 | the first three records of that pattern keep only the first |
| SsfFills.KeptDropsOne | src/kba/scorer/ssf.py:331-336 | a record reusing a run equiv_id with another truth is dropped |
| SsfHours.ScoreHours | src/kba/scorer/ssf.py:359-394 | `score_confusion_matrix_DATE_HOURS` computes the reference stage |
| SsfHours.EquivsStep | src/kba/scorer/ssf.py:377-383 | the seen set grows by the record's equiv_id |
| SsfHours.HoursFoldKept | src/kba/scorer/ssf.py:373-384 | the pass keeps exactly the first record of each equiv_id, and `seen` is the set of all equiv_ids met |
| SsfHours.HoursMeaning | src/kba/scorer/ssf.py:359-394 | the stage fails only for step 0, and passes on exactly the first record of each equiv_id |
| SsfHours.FirstsCover | src/kba/scorer/ssf.py:373-384 | one first record per equiv_id met |
| SsfHours.FirstsDistinct | src/kba/scorer/ssf.py:373-384 | no two first records share an equiv_id |
| SsfHours.FirstsAreFirst | src/kba/scorer/ssf.py:373-384 | each kept record is the earliest of its equiv_id in the input, and every earliest record is kept |
| SsfHours.PrefixFirst | src/kba/scorer/ssf.py:373-384 | being first does not depend on later records |
| SsfHours.HoursTable | src/kba/scorer/ssf.py:386-392 | the DATE_HOURS rows are those it had plus the kept records' targets; back-filling creates no cell; OVERLAPS and FILLS are untouched |
| SsfHours.HoursRows | src/kba/scorer/ssf.py:388-392 | the DATE_HOURS rows are those it had plus the kept records' targets |
| SsfHours.HoursRowStep | src/kba/scorer/ssf.py:388-392 | one more record keeps that description of the rows |
| SsfHours.HoursCellKeys | src/kba/scorer/ssf.py:388-392 | back-filling creates no cell |
| SsfHours.HoursOthers | src/kba/scorer/ssf.py:377-392 | the stage writes neither OVERLAPS nor FILLS |
| SsfHours.HoursTableEmpty | src/kba/scorer/ssf.py:388-392 | starting from an empty DATE_HOURS table, every row the stage creates is empty |
| SsfDescription.EntityPart | src/kba/scorer/ssf.py:399-406 | no entity part (the assertion fails) exactly when both reject flags are set |
| SsfDescription.AsWrittenFails | src/kba/scorer/ssf.py:419-425 | as written, the description fails for every input: the assertion when both reject flags are set, otherwise the missing `cutoff_step` attribute |
| SsfDescription.Description | src/kba/scorer/ssf.py:397-427 | the corrected description fails exactly when both reject flags are set, and otherwise starts with "ssf-" and the mode |
| SsfDescription.DescriptionReadsStep | src/kba/scorer/ssf.py:436 | the corrected description reads `cutoff_step_size`, the attribute the parser fills |
| SsfDescription.DescriptionStep | src/kba/scorer/ssf.py:419-425 | the cutoff step reads back with int() from the description's tail |
| SsfDescription.ModesApart | src/kba/scorer/ssf.py:540-542 | the four modes of one run never get the same file name |
| Kernels.MetricByNameMeaning | src/kba/scorer2/metrics.py:14-26 | get_metric_by_name succeeds exactly for the four names of `available_metrics`, returns the kernel of that name, and otherwise fails naming the unknown metric |
| Kernels.MetricNameRoundTrip | src/kba/scorer2/metrics.py:14-26 | looking up the name of any kernel gives that kernel back, and every kernel's name is listed in `available_metrics` |
| Kernels.CountBoth | src/kba/scorer2/metrics.py:55-63 | c_TT returns the number of keys of sc1 that sc2 also has; it is at most sc1's key count and symmetric in the key sets |
| Kernels.SharedBounds | src/kba/scorer2/metrics.py:55-63 | the shared-key count is at most the number of sc1's keys and does not depend on the order of the arguments |
| Kernels.CountRemove | src/kba/scorer2/metrics.py:35-39 | the counting loop may visit sc1's keys in any order: any key can be counted first |
| Kernels.CountsAreCards | src/kba/scorer2/metrics.py:35-39 | `both` is the size of the intersection of the key sets and `anotb` the size of their difference |
| Kernels.CountsAgree | src/kba/scorer2/metrics.py:35-39 | the counts depend only on which of sc1's keys the other counter has, not on its values or other keys |
| Kernels.SokalSneathKernel | src/kba/scorer2/metrics.py:28-53 | sokalsneath's two loops compute the score of the counts `both` and `anotb` with `bnota` left at 0 |
| Kernels.SplitCount | src/kba/scorer2/metrics.py:32-39 | the first loop counts the keys of sc1 present in sc2 as `both` and those absent as `anotb` |
| Kernels.SplitKeys | src/kba/scorer2/metrics.py:35-39 | every key of sc1 is counted as exactly one of `both` and `anotb` |
| Kernels.SokalMeaning | src/kba/scorer2/metrics.py:28-53 | the score lies in [0, 1]; it is 1 exactly when sc1 has a key and all of sc1's keys are in sc2, and 0 exactly when no key is shared |
| Kernels.RatioMeaning | src/kba/scorer2/metrics.py:48-53 | both/(both + 2·(anotb + 0)), with 0.0 when both counts are 0, lies in [0, 1]; it is 1 exactly when both > 0 and anotb = 0, and 0 exactly when both = 0 |
| Kernels.SokalIgnoresExtraKeys | src/kba/scorer2/metrics.py:41-46 | keys only sc2 has do not change the score, because the second loop tests sc2's keys against sc2 itself |
| Kernels.DotOverEmpty | src/kba/scorer2/metrics.py:80-87 | against an empty counter, where every missing key reads as 0, dot is 0 |
| Kernels.CountInEmpty | src/kba/scorer2/metrics.py:55-63 | c_TT against an empty counter is 0 |
| Kernels.DotOverIsSum | src/kba/scorer2/metrics.py:80-87 | the accumulation loop of dot is the sum of sc1[k]·sc2[k] over sc1's keys, in any order |
| Kernels.DotKernel | src/kba/scorer2/metrics.py:80-87 | the loop returns the sum over the keys of sc1 of sc1[k]·sc2[k], a missing key of sc2 reading as 0 |
| Kernels.DotSymmetric | src/kba/scorer2/metrics.py:80-87 | although the loop runs over sc1's keys only, dot(sc1, sc2) = dot(sc2, sc1) |
| Kernels.DotSelf | src/kba/scorer2/metrics.py:80-87 | dot(sc, sc) is non-negative, and 0 exactly when every count of sc is 0 |
| Kernels.CosineKernel | src/kba/scorer2/metrics.py:65-78 | cosine returns 0.0 exactly when one of the norms dot(sc1, sc1), dot(sc2, sc2) is 0; otherwise it reports the square-root branch as not modelled |
| Kernels.ApplyKernel | src/kba/scorer2/metrics.py:16-26 | calling the function get_metric_by_name returned computes that kernel's value |
| Kernels.KernelDefined | src/kba/scorer2/metrics.py:65-78 | only cosine can fall outside the model, and only when both norms are non-zero |
| Kernels.KernelUnit | src/kba/scorer2/metrics.py:28-78 | sokalsneath and the modelled cases of cosine give values in [0, 1] |
| Profiles.AddedMeaning | src/kba/scorer2/ssf.py:50-63 | add_value_for_slot creates the slot if missing and records the value; with truncation a count that is absent or 0 becomes 1 and any other count stays; without it the count rises by exactly 1; no other slot and no other value changes |
| Profiles.AddedKeepsCounts | src/kba/scorer2/ssf.py:54-61 | every stored count stays at least 1, and with truncation exactly 1 |
| Profiles.AddedAllCounts | src/kba/scorer2/ssf.py:50-63 | adding a token list to an empty profile gives one slot holding exactly the tokens, each counted by its occurrences, or once with truncation |
| Profiles.Padded | src/kba/scorer2/ssf.py:74 | reading `other._slots[slot_name]` for every slot name read leaves other with exactly its own slots plus those names |
| Profiles.PaddedReads | src/kba/scorer2/ssf.py:74 | the inserted counters are empty, so the padded profile reads like the original through the defaultdict |
| Profiles.PaddedTwice | src/kba/scorer2/ssf.py:70-75 | padding once per metric is padding once by all the names read |
| Profiles.PaddedOwnKeys | src/kba/scorer2/ssf.py:74 | reading slot names other already has changes nothing |
| Profiles.SlotSumIsSum | src/kba/scorer2/ssf.py:73-75 | the accumulation over self's slots is the sum of the kernel values per slot, in any order |
| Profiles.PaddingInvisible | src/kba/scorer2/ssf.py:74 | padding the other profile does not change the score under any metric name |
| Profiles.MetricPaddingInvisible | src/kba/scorer2/ssf.py:74 | the same for a kernel already looked up |
| Profiles.DefinedOnSame | src/kba/scorer2/ssf.py:73-75 | profiles that read alike through the defaultdict are either both within the model or both outside it |
| Profiles.SlotSumSame | src/kba/scorer2/ssf.py:73-75 | profiles that read alike through the defaultdict give the same sum |
| Profiles.KernelAgainstEmpty | src/kba/scorer2/metrics.py:28-87 | every kernel gives 0.0 against an empty counter |
| Profiles.DisjointScoresZero | src/kba/scorer2/ssf.py:65-75 | profiles with no slot name in common score 0 under every available metric |
| Profiles.SokalProfileBounds | src/kba/scorer2/ssf.py:65-75 | a sokalsneath comparison is always defined and lies between 0 and the number of self's slots |
| Profiles.PaddedBy | src/kba/scorer2/ssf.py:73-74 | a profile padded by some of the slot names is partly padded with respect to all of them |
| Profiles.TermStep | src/kba/scorer2/ssf.py:73-75 | adding one more slot's kernel value keeps the running sum equal to the sum over the slots done |
| Profiles.ScoreSuccess | src/kba/scorer2/ssf.py:73-75 | once every slot is done the running sum is the comparison's value |
| Profiles.ScoreFailure | src/kba/scorer2/metrics.py:77 | a slot whose kernel takes cosine's square-root branch takes the whole comparison outside the model |
| Profiles.AccumulateStep | src/kba/scorer2/ssf.py:70-75 | adding one more metric's comparison to its entry keeps every entry done equal to its start value plus its comparison |
| Profiles.AccumulateFails | src/kba/scorer2/ssf.py:70-75 | one metric outside the model takes the whole compare outside it |
| Profiles.AccumulatedAll | src/kba/scorer2/ssf.py:70-75 | after every metric name, each entry of `scores` is its start value plus that metric's comparison |
| Profiles.PartlyPaddedStep | src/kba/scorer2/ssf.py:70-75 | a metric that fails after an earlier one padded in full still leaves other partly padded |
| Profiles.ComparableProfile.constructor | src/kba/scorer2/ssf.py:42-48 | a new profile has the given name and truncation flag and no slots |
| Profiles.ComparableProfile.AddValueForSlot | src/kba/scorer2/ssf.py:50-63 | the profile's slots become those described by Profiles.AddedMeaning |
| Profiles.ComparableProfile.CompareSum | src/kba/scorer_2/profile.py:51-63 | compare of the earlier variant returns the sum over self's slots of the metric against other's slot, fails like that sum, pads other by self's slot names, and changes self only when self is other |
| Profiles.ComparableProfile.Compare | src/kba/scorer2/ssf.py:65-75 | compare adds each metric's sum over self's slots to that metric's entry of `scores`, keeps the entries' names, pads other by self's slot names when `scores` is non-empty, and is defined exactly when every metric is |
| Profiles.PadAndSum | src/kba/scorer2/ssf.py:73-75 | the slot loop returns the metric summed over self's slots and leaves other padded by all of them, or partly padded when it stops early |
| Profiles.SlotStep | src/kba/scorer2/ssf.py:73-75 | one slot read: the remaining slots shrink and the sum stays the sum over the slots read, or the comparison fails as a whole |
| ProfileBuilders.AddedAllAppend | src/kba/scorer2/ssf.py:98-101 | adding one token list and then another is adding their concatenation |
| ProfileBuilders.AddedAllFresh | src/kba/scorer2/ssf.py:100-105 | adding tokens to a slot the profile lacks adds exactly the slot a fresh profile would get, if there are tokens |
| ProfileBuilders.AddedUnder | src/kba/scorer2/ssf.py:50-63 | what add_value_for_slot does depends only on the slot's own counter |
| ProfileBuilders.AddTokens | src/kba/scorer2/ssf.py:104-105 | the token loop adds each token in turn |
| ProfileBuilders.TokenCounterAnySlot | src/kba/scorer2/ssf.py:104-105 | the counter a token list builds does not depend on the slot's name |
| ProfileBuilders.TruthSlotsMeaning | src/kba/scorer2/ssf.py:95-105 | a truth slot exists exactly when its value has a lower-cased, stripped, whitespace-split token; it holds exactly those tokens, counted per occurrence, or once each when the profile truncates |
| ProfileBuilders.ScorerTruthCounts | src/kba/scorer2/ssf.py:42 | scorer2's truth profiles take the default `truncate_counts = False`: a truth token counts once per occurrence |
| ProfileBuilders.EarlyTruthCounts | src/kba/scorer_2/profile.py:28 | scorer_2's truth profiles take the default `truncate_counts = True`: a token of the slot counts exactly 1 |
| ProfileBuilders.TruthSlotsStep | src/kba/scorer2/ssf.py:95-105 | adding one more slot's tokens extends the truth slots by that slot, in any slot order |
| ProfileBuilders.AddSlotValues | src/kba/scorer2/ssf.py:96-105 | a slot's value list, dict or single value adds its tokens, and a non-empty dict, whose keys cannot be indexed by 'value', fails |
| ProfileBuilders.AddListed | src/kba/scorer2/ssf.py:98-101 | a listed slot adds the tokens of each item's 'value' in turn |
| ProfileBuilders.BuildTruthProfile | src/kba/scorer2/ssf.py:94-107 | one entity gives a fresh profile of its name holding its truth slots, or the error of the slot that fails |
| ProfileBuilders.ProfilesFromTruth | src/kba/scorer2/ssf.py:92-109 | profiles_from_truthfile gives one separate fresh profile per entity, holding its truth slots, or fails naming an entity whose data fails |
| ProfileBuilders.WithProfile | src/kba/scorer2/ssf.py:152-153 | a run entity's profile is created empty when missing, and the others are kept |
| ProfileBuilders.AddedAllKeys | src/kba/scorer2/ssf.py:229-230 | a row's tokens add at most its own slot and leave the other slots alone |
| ProfileBuilders.AddedAllKeepsCounts | src/kba/scorer2/ssf.py:229-230 | counts stay at least 1, and exactly 1 under truncation, over any token list |
| ProfileBuilders.RunCountBound | src/kba/scorer2/ssf.py:133-143 | `count` starts at 1 and rises only while it is within `max_lines`: at most `max_lines` data rows are read, and the loop stops only once `count` exceeds the limit |
| ProfileBuilders.CommentIgnored | src/kba/scorer2/ssf.py:136-138 | a comment row changes nothing, not even `count` |
| ProfileBuilders.RowTokensMeaning | src/kba/scorer2/ssf.py:156-230 | a data row fails exactly for a stream id the pattern refuses, fails for a document that does not decode when decoding first exactly then, and fails exactly when the chunk is present and readable but the offsets do not convert; a missing chunk adds no tokens under scorer2 and fails under scorer_2; only scorer2 adds no tokens; the tokens added are non-empty and hold no whitespace, '_' or upper-case ASCII letter |
| ProfileBuilders.RunStepMeaning | src/kba/scorer2/ssf.py:134-153 | an empty row fails at `row[0]`; a comment changes nothing; past `max_lines` the loop stops before reading the row; a short data row fails; a data row raises `count` by 1, creates its entity's profile and keeps every other profile |
| ProfileBuilders.RunFoldFailure | src/kba/scorer2/ssf.py:134-230 | the row loop fails exactly when some row fails while the loop is still running |
| ProfileBuilders.RunStepShape | src/kba/scorer2/ssf.py:145-153 | a row adds at most the profile of its field 3 and, under it, the slot of its field 8 |
| ProfileBuilders.RunOrigins | src/kba/scorer2/ssf.py:134-230 | every run profile and every slot in it comes from a data row naming that entity and slot |
| ProfileBuilders.RunTruncates | src/kba/scorer2/ssf.py:153 | run profiles truncate: every count is 1 |
| ProfileBuilders.FlavoursAgree | src/kba/scorer_2/profile.py:182-187 | the two scorers read a row alike, except that scorer2 skips a missing chunk, where scorer_2 fails, and skips a span that does not decode, which scorer_2 keeps and tokenises |
| ProfileBuilders.ScorerRunProfiles | src/kba/scorer2/ssf.py:111-232 | a first line without '#' fails; a task other than kba-ssf-2014 gives None; otherwise the result is the rows' profiles, one fresh truncating profile per entity, or the rows' error |
| ProfileBuilders.EarlyRunProfiles | src/kba/scorer_2/profile.py:98-195 | scorer_2's reader gives the profiles of at most 1000 data rows, read with its own rules for a missing chunk and a span that does not decode |
| ProfileBuilders.RunFoldSticks | src/kba/scorer2/ssf.py:140-141 | once the row limit stops the loop or a row fails, the rows after it change nothing |
| ProfileBuilders.EnsureProfile | src/kba/scorer2/ssf.py:152-153 | the entity's profile exists afterwards, fresh if it was missing, and the others are the same objects |
| ProfileBuilders.AddFullRow | src/kba/scorer2/ssf.py:145-230 | a data row's tokens go into its entity's profile under its slot, and `count` rises by 1 |
| ProfileBuilders.ProcessRow | src/kba/scorer2/ssf.py:134-230 | one row is skipped, stops the loop, fails, or adds its tokens exactly as the row step of the specification says |
| ProfileBuilders.RunProfiles | src/kba/scorer2/ssf.py:133-232 | the row loop builds one fresh truncating profile per entity whose slots are those the rows give, or fails with the first row's error |
| Spans.ScorerConfigMeaning | src/kba/scorer2/ssf.py:254-287 | an unknown run gets no overrides and so the defaults (no 'c' prefix, inclusive offsets, no early decoding); the five listed runs use exclusive offsets and decode early, and exactly the three others than BUPT_PRIS set the 'c' prefix |
| Spans.EarlyConfigsAgree | src/kba/scorer_2/profile.py:231-254 | scorer_2's table is scorer2's first three entries named without '.gz', and any other name gets no overrides |
| Spans.OffsetListMeaning | src/kba/scorer2/ssf.py:156-161 | without the 'c' prefix the offset string is the only offset; with it, the string is split on ',' and each piece loses its first character |
| Spans.ParseAllMeaning | src/kba/scorer2/ssf.py:209 | `[int(loc) for loc in ...]` parses every piece, in order, or fails when some piece does not parse |
| Spans.BoundsOfSingle | src/kba/scorer2/ssf.py:207-213 | a single offset "b-e" gives begin b and end e, or e + 1 when offsets are inclusive |
| Spans.BoundsSingleShape | src/kba/scorer2/ssf.py:207-213 | a single offset whose pieces parse to exactly two values gives those as begin and end, end moved by 1 when inclusive |
| Spans.BoundsOfRaw | src/kba/scorer2/ssf.py:211-213 | inclusive offsets move only the end, by 1 |
| Spans.BoundsSeveralShape | src/kba/scorer2/ssf.py:204-206 | several offsets take begin from the first piece of the first and end from the second piece of the last |
| Spans.BoundsOfSeveral | src/kba/scorer2/ssf.py:204-206 | several offsets "b-x", ..., "y-e" give b and e whatever lies between |
| Spans.BoundsRefuseThreePieces | src/kba/scorer2/ssf.py:209 | a single offset of three pieces does not unpack into begin and end and fails |
| Spans.SlotText | src/kba/scorer2/ssf.py:216 | the slot text is never longer than clean_visible |
| Spans.SpanTokens | src/kba/scorer2/ssf.py:229 | the tokens of a span are non-empty, hold no whitespace, no '_' and no upper-case ASCII letter, and are its non-whitespace characters in order |
| Spans.SlotTextInside | src/kba/scorer2/ssf.py:216 | for bounds inside clean_visible the slot text is the plain slice, lower-cased, with '_' turned into ' ', stripped |
| Spans.LastDash | src/kba/scorer2/ssf.py:177 | the greedy leading `.*` of the pattern places the match at the last '-' followed by four characters with no newline before them |
| Spans.StreamItemPathMeaning | src/kba/scorer2/ssf.py:177-185 | a path exists exactly when the pattern matches; it is then the two pairs of characters after the last matching '-', then the id with `.sc.xz.gpg` |
| Spans.StreamItemPathExample | src/kba/scorer2/ssf.py:169-173 | a stream id of the documented shape maps to `ab/cd/<id>.sc.xz.gpg` |
| Spans.NoDashNoPath | src/kba/scorer2/ssf.py:179-180 | an id without '-' has no path, and reading its stream item raises |
| ProfileScoring.ScoredStep | src/kba/scorer2/ssf.py:243-247 | one more run entity with a truth profile and defined comparison keeps the run's entities done scorable |
| ProfileScoring.NotScored | src/kba/scorer2/ssf.py:246 | a run entity without a truth profile, where `truth_profiles[entity]` raises, takes the whole run outside the model |
| ProfileScoring.ScoredAll | src/kba/scorer2/ssf.py:243-247 | when every run entity has been compared the run is scorable |
| ProfileScoring.SumStep | src/kba/scorer_2/profile.py:217-223 | one more entity's comparison added to `score_sum` keeps it the sum over the entities done |
| ProfileScoring.ComparesOkPadded | src/kba/scorer2/ssf.py:74 | padding a run profile changes no comparison |
| ProfileScoring.EntityStep | src/kba/scorer2/ssf.py:243-247 | one more entity compared adds its comparison to every metric's total |
| ProfileScoring.CompareEntity | src/kba/scorer2/ssf.py:245-247 | comparing one run entity's truth profile with it adds that entity's comparison to each total and changes the profiles only by padding |
| ProfileScoring.CompareSumEntity | src/kba/scorer_2/profile.py:220-223 | comparing one run entity returns its comparison under the metric and changes the profiles only by padding |
| ProfileScoring.ScorerScoreRun | src/kba/scorer2/ssf.py:235-247 | score_run adds to each metric's entry of `scores` the sum over the run entities of their comparisons, is defined exactly when every run entity has a truth profile and defined comparisons, and only pads the run profiles |
| ProfileScoring.AddEntities | src/kba/scorer2/ssf.py:243-247 | the entity loop gives each metric's start value plus the sum over all run entities, against the profiles as they were at the start |
| ProfileScoring.ScoreSum | src/kba/scorer_2/profile.py:217-225 | the loop of score_run returns the sum over the run entities of their comparisons under the one metric, is defined exactly when all are, and only pads the run profiles |
| ProfileScoring.SumEntity | src/kba/scorer_2/profile.py:218-223 | one entity of the loop adds its comparison to the sum, or shows the run cannot be scored |
| ProfileScoring.SumEntities | src/kba/scorer_2/profile.py:217-225 | the loop returns the sum over all run entities against the profiles at its start |
| ProfileScoring.EarlyScoreRun | src/kba/scorer_2/profile.py:208-225 | score_run builds the run profiles with the configuration and sums their comparisons with the truth profiles, or fails with the reader's error or when some entity cannot be scored |
| ProfileScoring.SokalRunOk | src/kba/scorer2/ssf.py:246 | under sokalsneath a run can be scored exactly when every run entity has a truth profile |
| ProfileScoring.SokalRunNonneg | src/kba/scorer_2/profile.py:217-225 | a sokalsneath run total is never negative |
| ProfileScoring.DisjointRunScoresZero | src/kba/scorer_2/profile.py:217-225 | a run whose profiles share no slot name with the truth scores 0 under every available metric |
| Ladder.Cutoffs | src/kba/scorer/ccr.py:56 | `range(0, 999, step)` is undefined exactly for step 0 and empty for a negative step |
| Ladder.From | src/kba/scorer/ccr.py:56 | the ladder from `start` holds start + i·step at position i, every value below 999, and is non-empty exactly when start < 999 |
| Ladder.LadderShape | src/kba/scorer/ccr.py:56 | for a positive step the ladder is strictly increasing, starts at 0, and holds exactly the multiples of step below 999 |
| Ladder.CutoffsDistinct | src/kba/scorer/ccr.py:56 | whatever the step, the ladder has no repeated cutoff |
| Ladder.FromIncreasing | src/kba/scorer/ccr.py:56 | the ladder from any start is strictly increasing |
| Ladder.LadderHasAll | src/kba/scorer/ccr.py:56 | every multiple of step below 999 is on the ladder |
| Text.StripMeaning | src/kba/scorer/ccr.py:65 | `strip()` is empty exactly for all-whitespace text; otherwise it neither starts nor ends with whitespace, and it is the text with whitespace-only ends cut off |
| Text.SplitWhitespace | src/kba/scorer/ccr.py:68 | `split()` gives non-empty whitespace-free pieces that concatenate to the text's non-whitespace characters, and none exactly for all-whitespace text |
| Text.SplitOn | src/kba/scorer/ccr.py:70 | `split(sep)` gives at least one piece, none holds sep, and joining them with sep gives the text back |
| Text.SplitJoin | src/kba/scorer/ccr.py:70 | splitting a join of sep-free pieces gives the pieces back |
| Text.PyIntOfFloatOfIntToString | src/kba/scorer/ccr.py:72 | `int(float(str(n)))` is n for every integer n, reading the text as an exact decimal |
| Text.PyIntOfFloatExponent | src/kba/scorer/ccr.py:72 | exponent notation is read, reading the text as an exact decimal: `int(float("<d>e<k>"))` is d·10^k for digit runs d and k |
| Text.PyIntOfFloatFraction | src/kba/scorer/ssf.py:154 | the fractional digits are truncated, reading the text as an exact decimal: `int(float("<d>.<f>"))` is d |
| Text.PyIntOfFloatMinus | src/kba/scorer/ccr.py:72 | a leading '-' negates the value of whitespace-free notation |
| Text.PyIntOfIntToString | src/kba/scorer/ccr.py:243 | `int(str(n))` is n for every integer n |
| Text.PyIntSpacedSign | src/kba/scorer/ccr.py:172 | Python 2's `int()` skips whitespace between the sign and the digits: a sign, any run of whitespace and `str(n)` read as n, negated for '-' |
| Text.PyIntSpacedExamples | src/kba/scorer2/ssf.py:209 | `int("- 1")` is -1 and `int("+ 7")` is 7, while a sign with no digits after it, as in `"- "`, raises |
| Text.Lower | src/kba/scorer2/ssf.py:216 | `lower()` keeps the length and lower-cases each ASCII letter in place |
| Text.ReplaceChar | src/kba/scorer2/ssf.py:216 | `replace('_', ' ')` keeps the length and changes exactly the '_' characters |
| Text.PySlice | src/kba/scorer2/ssf.py:216 | Python slicing is never longer than the text, and is the plain slice for bounds within it |

## Left out

- File and format reading: opening files, gzip, CSV, JSON and YAML parsing, and the `.json`/`.yaml` extension test of `profiles_from_truthfile`. Runs, judgments and truth data are given already split into lines, rows and nested maps. scorer2's run-file header is given as its line and its `task_id`.
- Command-line drivers: the `__main__` blocks, argparse, `score_all_runs`, and scorer_2's `runfiles` directory walk. The SSF `reject` callable built there is modelled, as is ccr.py's `reject`.
- Logging, `print`, the `num_assertions` bookkeeping, `scorer/_outputs.py` (CSV writing and plots), and the scripts under `src/scripts`.
- Stream-item retrieval: `streamcorpus.Chunk`, `os.path.isfile` and UTF-8 decoding.
  - The chunks are a map from path below the stream-items directory to the document's `clean_visible` text; a path absent from the map is a missing file.
  - Whether a text decodes as UTF-8 is a predicate given as a parameter.
  - The first stream item of a chunk is taken to exist.
- Byte and code-point offsets: `clean_visible` is one `seq<char>`, indexed by the offsets whether it is decoded first or not. The model does not distinguish byte positions from character positions.
- Text: `lower()` changes ASCII letters only. `strip()`/`split()` treat as whitespace the six ASCII whitespace characters of a Python 2 byte string. Unicode case mapping and Unicode whitespace are not modelled.
- Floating point: all metrics are exact reals, so IEEE rounding is not modelled.
- Text.PyIntOfFloat: reads the decimal text exactly and truncates it. Python first rounds to the nearest double, so the two differ where that rounding crosses an integer: integers beyond 2^53 that are not doubles, and fractions within about 1e-16 of the next integer. A value beyond the double range becomes `inf` in Python, and `int` then raises `OverflowError`, where the model returns the value. Floating point is not modelled.
- Text.PyIntOfFloatOfIntToString: holds for the exact reading; for |n| > 2^53 Python may return the nearest double instead of n.
- Text.PyIntOfFloatExponent: holds for the exact reading; Python raises `OverflowError` once d·10^k is beyond the double range ("1e400"), and rounds d·10^k to the nearest double above 2^53 (see Text.PyIntOfFloat).
- Text.PyIntOfFloatFraction: holds for the exact reading; Python rounds to the nearest double first, so a fraction within about 1e-16 of the next integer reads as that integer ("99999999999999999.9" gives 10^17), and an integer part above 2^53 may round (see Text.PyIntOfFloat).
- Ccr.ScoreMeaning: reads each run line's confidence with Text.PyIntOfFloat, so a line counts as malformed, and a confidence takes its value, within the limits of that function.
- SsfDocs.ParseRunLineMeaning: the same limits of Text.PyIntOfFloat for conf.
- SsfDocs.DocsMeaning: the same limits of Text.PyIntOfFloat for each run line's conf.
- Dict and set iteration order: loops take the keys in any order (`Sets.Choose`). Each result is proved the same for every order, except where the order is the point (the OVERLAP record list).
- scorer_2 imports `get_metric_by_name` from a `metrics` module that is not part of this model. Its kernels are taken to be those of `scorer2/metrics.py`.
- Kernels.CosineKernel: only the zero-norm guard of `cosine` is modelled. When both norms are non-zero the result is a `Failure(SqrtNotModelled)` instead of `product / sqrt(norm1 * norm2)`, because the square root of a real is not available. Every comparison, profile score and run score that reaches that branch is reported as that failure (Kernels.KernelDefined).
- ProfileScoring.ScorerScoreRun: requires the run profiles and the truth profiles to be distinct objects (`Disjoint`). The code builds them in separate readers, so they always are; aliasing between the two maps is not modelled.
- ProfileScoring.ScoreSum: the same `Disjoint` requirement, for the same reason.
- ProfileScoring.CompareEntity, ProfileScoring.CompareSumEntity, ProfileScoring.AddEntities, ProfileScoring.SumEntity and ProfileScoring.SumEntities: the same `Disjoint` requirement, for the same reason.

## Findings

| source | as written | input that shows it | evidently intended | confidence | as-written member | corrected member |
|---|---|---|---|---|---|---|
| src/kba/scorer/ssf.py:425 | `make_description` ends with `str(args.cutoff_step)`, but the parser stores the step as `cutoff_step_size` (line 436). Every call that gets past the entity assertion raises `AttributeError`. | any arguments without both reject flags, e.g. the defaults | the description ends with `-cutoff-step-size-` and the parsed `cutoff_step_size` | not executed | SsfDescription.AsWrittenFails | SsfDescription.DescriptionReadsStep |
