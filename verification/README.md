# Fairness analysis of bail decisions and risk scores — a Dafny model

`DataAnalysis.py` is a batch script. It concatenates criminal-justice records into one
table. Each record has County, Race, Gender, Education Level, an integer Risk Score,
Judge Decision and Re-offense. The script then writes summary tables to a workbook.
This project models the three pieces of it that do more than plumbing. All of them
work on a finite sequence of records and use integer counting only:

- **Cross-tabulation with margins and sheet naming** (`table_generate_export` and
  `crosstab_exe` in count mode). Module `CrossTab` (crosstab.dfy) builds the count
  table: one cell per (row key, column value), plus a "Total" column and a "Total"
  row. It proves that the margins are the sums of the cells. Module `Report`
  (report.dfy) models the imperative loop over column keys and the optional nested
  keys. That includes how the `index` list is rebound inside the loop, and the
  error `reset_index` raises on a cross-tab whose row keys name a column twice. It
  also covers the sheet names and the sequence of exported sheets.
- **Per-race fairness rates** (`Fairness_Judge`). Module `Fairness` (fairness.dfy)
  holds the per-race summary (total, "Yes", and "No" computed as total − "Yes"). It
  joins the (Race, Judge Decision) × Re-offense table onto that summary and computes
  FPR and FNR as exact fractions. The fractions are not floats.
- **Risk-score threshold sweep** (`Fairness_Risk`). Module `Sweep` (sweep.dfy) models
  the loop over thresholds 1..10. It re-decides each record, labels it TP/FP/FN/TN,
  counts per (race, outcome) and appends the counts to an accumulator. It then
  densifies the accumulator onto the product of the races, thresholds and outcomes
  it holds. The accumulator is a map from (race, threshold, outcome) to a count, so
  each triple appears at most once by construction. Module `SweepSummary`
  (sweep_summary.dfy) relates the sweep's counts to the fairness summary.

Records are `Records.Record` values. A missing (NaN) Risk Score is `None`. Module
`Wrappers` (wrappers.dfy) supplies `Option` and `Result`.

Three behaviours of the code are easy to misread from its comments and names. The
model follows the code:

- **Zero-fill product.** The comment at DataAnalysis.py:220 describes the step as
  filling in missing outcomes for each racial group and threshold. The product is
  built from the outcome values present in the accumulator (`u_outcome`, line 223).
  An outcome never observed at any threshold so far gets no rows at all.
  `Sweep.NoYesRowsWithoutYesRecords` states one such case.
- **Races in the zero-fill.** The races come from the accumulator (`u_group`,
  line 221). These are the races with at least one labelled record, not every race
  in the data.
- **Fairness_Judge sheets.** Line 170 exports the fairness table as the sheet
  `Fairness_Judge`. The call at line 155 goes through `table_generate_export`, so
  line 69 also writes the cross-tab, as the sheet `Fairness_Judge_Re-offense`.
  `Report.SheetName` produces that name.
- **Nested keys with several column keys.** Inside the nested loop `index` is
  rebound to a copy of `ind` plus the nested key (lines 81-82). The next column key
  then starts from that list (line 76), which already holds the last nested key.
  With two column keys the second loop reaches a row-key list that names its last
  nested key twice, and `reset_index` (line 67) raises there.
  `Report.NestedTwoColumnsRepeatsKey` states it. Every nested call (lines 117, 175
  and 180) has a single column key, and the calls with several column keys (lines 96
  and 106) have no nested list, so none of them reaches this case.

## Model

| member | source | states |
|---|---|---|
| Records.FieldValue | DataAnalysis.py:61 | a column's value is missing only for a record without a Risk Score; categorical columns always hold text |
| Records.KeyOf | DataAnalysis.py:61 | a record's row key exists exactly when every key column has a value, and then it lists those values in key order |
| CrossTab.OnlyMissingScoresDropped | DataAnalysis.py:60-62 | a record stays out of the count table exactly when its Risk Score is missing and Risk Score is one of the keys, so the table counts all records minus the unscored ones in that case and all records otherwise |
| CrossTab.CellCountPositive | DataAnalysis.py:60-62 | a cell count is positive exactly when some record falls in that (row key, column value) bucket |
| CrossTab.ObservedMeansCounted | DataAnalysis.py:60-62 | every row key and column value that appears in the table counts at least one record |
| CrossTab.RowCountIsSum | DataAnalysis.py:61-62 | the records with a row key are the sum of that row's cells over the listed column values |
| CrossTab.ColCountIsSum | DataAnalysis.py:61-62 | the records with a column value are the sum of that column's cells over the listed row keys |
| CrossTab.CompleteCountIsSum | DataAnalysis.py:61-62 | the complete records are the sum of the per-column counts |
| CrossTab.CompleteCountIsRowSum | DataAnalysis.py:61-62 | the complete records are the sum of the per-row counts over a list naming each observed row key once |
| CrossTab.TotalColumnIsRowSum | DataAnalysis.py:61-62 | an observed row's "Total" cell is the sum of its cells and equals the (positive) number of records with that row key |
| CrossTab.TotalRowIsColumnSum | DataAnalysis.py:61-62 | an observed column's "Total" cell is the sum of its cells over the rows and equals that column's record count |
| CrossTab.GrandTotalIsSum | DataAnalysis.py:61-62 | the grand total is the sum of the "Total" row and counts every record with a complete key |
| CrossTab.GrandTotalIsColumnSum | DataAnalysis.py:61-62 | the grand total is also the sum down the "Total" column over the observed row keys |
| CrossTab.CellCountsBucket | DataAnalysis.py:60-62 | each cell of an observed row and column is positive exactly when some record has that row key and column value |
| Report.SheetNameInjective | DataAnalysis.py:74-80 | within one topic, two column keys give the same sheet name exactly when they are the same key |
| Report.PlanFlat | DataAnalysis.py:74-85 | without nested keys, the i-th sheet is `topic_<column i>`, keyed by the base keys, over column i |
| Report.PlanNestedSingleColumn | DataAnalysis.py:78-83 | with nested keys and one column key, the k-th sheet is `topic_<j_k>`, keyed by the base keys plus j_k |
| Report.PlanNestedTwoColumns | DataAnalysis.py:74-83 | with nested keys and two column keys, the first loop's sheets are keyed by base+j_k and the second loop's by base+[last nested key]+j_k, because `index` is rebound and not restored |
| Report.NestedTwoColumnsRepeatsKey | DataAnalysis.py:67-82 | with nested keys and two column keys, the run raises at the second loop's last nested key at the latest, and exactly there when the base and nested keys are all different columns |
| Report.ScriptNestedSheets | DataAnalysis.py:117 | the script's nested calls (nested by Race, then Gender; also lines 175 and 180) export `topic_Race` and `topic_Gender` keyed by base+Race and base+Gender |
| Report.FirstRepeatMeans | DataAnalysis.py:67 | the run stops at the first cross-tab whose row keys name some column twice: every earlier one has distinct row keys |
| Report.ExportNested | DataAnalysis.py:79-83 | the inner loop exports exactly the planned nested sheets up to the first repeated-key step, returns that step when there is one, and otherwise leaves the row keys as the base keys plus the last nested key |
| Report.ExportColumn | DataAnalysis.py:74-85 | one pass over a column key exports its planned sheets up to the first repeated-key step, reports that step, and otherwise leaves the row keys as the next column key finds them |
| Report.TableGenerateExport | DataAnalysis.py:57-86 | the exported sheets are exactly the plan realised up to its first repeated-key step; the call then raises at that step, and otherwise returns the last exported table, or fails on an unbound table when nothing ran |
| Fairness.EncodedIsYesPlusNo | DataAnalysis.py:130-150 | the records whose Re-offense encodes are the "Yes" records plus the "No" records |
| Fairness.Summarize | DataAnalysis.py:150-152 | in a race's summary, "Yes" ≤ total, total = "Yes" + "No", and "Yes"/"No" count exactly that race's "Yes"/"No" records |
| Fairness.SummariesAddUp | DataAnalysis.py:150-152 | over a list naming each race of the data once, the summary totals add up to the number of records whose Re-offense is "Yes" or "No" |
| Fairness.ReoffenseRate | DataAnalysis.py:150 | the re-offense rate is NaN exactly for an empty group; otherwise it is the fraction yes/total, in [0,1] |
| Fairness.Divide | DataAnalysis.py:163-167 | division is NaN with a missing operand or for 0/0, infinite only for x/0 with x > 0, and otherwise the exact fraction; a count no larger than its denominator is never infinite and its rate lies in [0,1] |
| Fairness.FairnessJudge | DataAnalysis.py:155-167 | the lookup fails exactly when the "Yes" or "No" column is absent; otherwise the table has one row per cross-tab row, Total included |
| Fairness.FairnessEntry | DataAnalysis.py:155 | a record falls in the (Race, Judge Decision) × Re-offense bucket named by its own three values |
| Fairness.BucketWithinRace | DataAnalysis.py:155-164 | a (race, decision, value) bucket never exceeds the race's count of that value |
| Fairness.ObservedRowKey | DataAnalysis.py:155-159 | every cross-tab row key is a (race, decision) pair of text values whose race has a summary |
| Fairness.FairnessGroupRate | DataAnalysis.py:150-158 | each observed row carries its race's re-offense rate, NaN exactly when none of the race's labels encode; the Total row joins a summary only when some race is named "Total", and otherwise has none and a NaN rate |
| Fairness.FairnessRates | DataAnalysis.py:159-167 | FPR is set exactly on "Denied" rows and FNR exactly on "Granted" rows; each is the row's count over the race's total; neither is ever infinite; a defined rate lies in [0,1]; the Total row gets neither |
| Sweep.Predict | DataAnalysis.py:205-206 | after the two masked assignments onto a missing decision, a scored record holds exactly one decision: the second mask never overwrites the first, so it is "Denied" iff score ≥ threshold and "Granted" iff score < threshold; an unscored one holds none |
| Sweep.PredictMonotone | DataAnalysis.py:205-206 | a higher threshold never turns "Granted" into "Denied" |
| Sweep.Label | DataAnalysis.py:209-213 | an outcome is assigned exactly when there is a decision and Re-offense is "Yes" or "No" |
| Sweep.LabelTruthTable | DataAnalysis.py:210-213 | (Yes, Denied)→TP, (No, Denied)→FP, (Yes, Granted)→FN, (No, Granted)→TN, and each outcome comes from exactly that pair |
| Sweep.Classify | DataAnalysis.py:204-213 | a record gets an outcome at a threshold exactly when it has a score and a "Yes"/"No" Re-offense |
| Sweep.TallyPositive | DataAnalysis.py:216 | a (race, threshold, outcome) count is positive exactly when some record has that race and outcome at that threshold |
| Sweep.GroupedAt | DataAnalysis.py:216-217 | one threshold's grouped counts have a row exactly for each (race, outcome) that occurs, with its exact count |
| Sweep.Densify | DataAnalysis.py:221-227 | the merged table is the left merge onto the product of the unique races, thresholds and outcomes: every accumulated row is kept with its count unchanged, and every row it adds holds 0 |
| Sweep.DensifyKeepsCounts | DataAnalysis.py:226-227 | densifying keeps every present row with its count unchanged and adds only zero rows |
| Sweep.SweepStep | DataAnalysis.py:216-227 | one iteration appends rows disjoint from the existing ones, and the densified result holds the sweep domain with exact counts |
| Sweep.SweepThreshold | DataAnalysis.py:204-227 | one pass of the loop body takes the accumulator after t−1 thresholds to the accumulator after t thresholds |
| Sweep.ThresholdSweep | DataAnalysis.py:203-227 | after the sweep each triple of (labelled race, threshold 1..10, observed outcome) appears once, holding its exact count or 0 |
| Sweep.ConditionPartition | DataAnalysis.py:210-216 | at any threshold, a race's TP+FN is its scored "Yes" records and FP+TN its scored "No" records |
| Sweep.RaisingThresholdGrantsMore | DataAnalysis.py:205-213 | raising the threshold never increases TP or FP and never decreases FN or TN |
| Sweep.FirstThresholdDeniesAll | DataAnalysis.py:203-212 | when every score is at least 1, threshold 1 has no FN and no TN |
| Sweep.ThresholdTotalIsLabelled | DataAnalysis.py:209-216 | at one threshold, the counts of all races with labelled records sum to the number of labelled records |
| Sweep.NoYesRowsWithoutYesRecords | DataAnalysis.py:223-227 | when no labelled record re-offended, the densified table has no TP or FN rows at all |
| SweepSummary.ScoredIsAll | DataAnalysis.py:210-213 | when every record of a race has a score, its scored records with a Re-offense value are all its records with that value |
| SweepSummary.SweepSplitsSummary | DataAnalysis.py:150-216 | when every record of a race has a score, TP+FN equals its summary's "Yes" count and FP+TN its "No" count, at every threshold |

## Left out

- Reading CSV files, directory discovery and concatenation order (DataAnalysis.py:24-44). These are file I/O, and row order does not change any grouped count.
- The Excel export (`excel_export`, the writer's replace-per-sheet mode, creating the output directory; DataAnalysis.py:28-34, 50-53, 69, 170, 231; the last writes the sheet `Fairness_Risk`). A sheet is modelled as a name and a table, and the workbook as the sequence of exported sheets.
- The `mean`-aggregated cross-tab of Risk Score (DataAnalysis.py:63-66, 106). It averages floats. The summary's re-offense rate (`mean`, line 150) is kept, as the exact fraction yes/total.
- `print` diagnostics and the unused plotting import.
- Records.Record: categorical columns are never missing; only the Risk Score can be NaN. pandas would drop a NaN race or decision from a grouping key. Here only a NaN score drops out.
- Records.Record: a Risk Score is an integer. A non-integer score would compare against the thresholds differently.
- CrossTab.CountTable: a table is a map from (row, column) to count. Row and column order, the `reset_index` layout and the float dtype that pandas can produce are not modelled.
- Report.TableGenerateExport: `reset_index` also raises when a column value of the cross-tab equals the header of a row-key column. The model does not detect that case. It assumes that no value of the Race, Gender, Education Level, Risk Score or Re-offense columns equals one of the row-key headers ("County", "Judge Decision", "Race", "Gender", "Re-offense").
- CrossTab.CountTable: pandas refuses to add the margins, and raises, when a row-key value or column value already reads "Total". The model keeps its margin headers apart from every value, so it builds the table anyway. In that case `Fairness.FairnessJudge` would join a race named "Total" onto the margin row.
- Fairness.FairnessJudge: on the cross-tab's "Total" row the decision label is empty, so FPR and FNR are absent (NoRate). Its "Yes" and "No" counts are not restated; they are the column margins.
- Sweep.ThresholdSweep: the accumulator is a map. The row order of the concatenated and merged DataFrame and the float type of the filled counts are not modelled. "Each triple appears exactly once" holds by construction.
- Sweep.Densify: modelled as a method whose result is specified by `IsDensified`. The unique column values are computed as sets, not as arrays in order of first appearance.
