# Latency categorisation: quintile tests, Cliff's delta and the data loaders

These scripts measure how transaction latency on a blockchain service
depends on three block factors: gas price, block size and transaction
count. Each script has two parts, and this project models both of them.

**The loaders (`process_service_data`).** Each script has its own copy.
A loader reads the latency CSV files and the block CSV files, then
merges them in one of two ways: by position (index-based runs) or by an
inner join on the transaction hash. A merge is usually followed by
`dropna`. The copies differ in several ways:

- whether a file that fails is skipped inside a `try`, or the error ends
  the run;
- whether the block size is converted to KB;
- whether the hash column is filtered;
- what is done when neither mode is selected.

The model has four loader modules, one per distinct copy:

- `SharedLoader` covers the LowGas statistical script, the per-function
  script and the two `_final` scripts;
- `HighGasLoader`;
- `Phase1Loader`;
- `Phase2Loader`.

Files become input values: missing, unreadable, or columns and rows. The
pandas operations the loaders use are written out on rows:

- column selection;
- `dropna`;
- `groupby(...).first()`;
- `pd.concat` by rows and side by side;
- the inner join, which matches a missing key with a missing key, as
  pandas does.

**The significance-gated analysis.** A factor's records are split into
quintiles Q1..Q5, and a Kruskal-Wallis (KW) test runs over the quintile
groups. Only when p < 0.05 does a Dunn post-hoc table follow. It has one
row per pair of groups, in the order of the nested loop (Q1 vs Q2,
Q1 vs Q3, ..., Q4 vs Q5), and carries Cliff's delta according to each
script's policy:

- the two `Statistical_analysis` scripts compute and show delta only for
  significant pairs;
- Phase 1 computes delta for every pair but shows it only for
  significant ones;
- Phase 2 computes and shows delta for every pair, with a Yes/No column.

Cliff's delta is the scripts' own formula: over all pairs of the two
samples, the pairs where the first value is larger minus the pairs where
it is smaller, divided by the number of pairs. An empty group makes that
division fail, and the model carries this as an error value. The
`pd.qcut` labels, the KW statistic and p-value, and the Dunn p-value
matrix come from libraries, so they are inputs.

The report builders are loops. They append pages or sections factor by
factor, and the first failure ends the loop. Each is a method proved
equal to a specification function. The properties are stated as lemmas
about those functions:

- which pages appear, and exactly when;
- the layout of the pair table;
- the range and symmetry of delta;
- which rows a merge keeps.

The frame's quintile columns are shared state: a later step reuses a
column that an earlier step assigned. They are a class,
`Quintiles.QuintileColumns`, whose map of columns the report methods
modify.

Two behaviours of the code that the model keeps as written:

- The HighGas statistical script and the Phase 1 script read files
  outside any `try`, so there an unreadable file or a missing column
  ends the run with an error.
- The per-function script runs the Dunn test whatever the KW p-value.

## Model

| member | source | states |
|---|---|---|
| Stats.RoundedUnits | Latency_Categorize_data/Latency_addition+selection_analysis_Phase1.py:88-93 | `round(x, n)` picks a multiple of 10^-n within half a unit of x; a tie goes to the even multiple |
| Stats.RoundHalfEven | Latency_Categorize_data/Latency_addition+selection_analysis_Phase1.py:88-93 | the rounded value differs from x by at most half a unit of the last place kept |
| Stats.RoundedGateThreshold | Latency_Categorize_data/Latency_addition+selection_analysis_Phase1.py:343-346 | comparing the 6-place rounding of p with 0.05 accepts exactly the p below 0.0499995 |
| Stats.RoundedGateDisagrees | Latency_Categorize_data/Latency_addition+selection_analysis_Phase1.py:86-91 | p = 0.04999975 is significant, but its 6-place rounding is not |
| Stats.Interpretation | Latency_Categorize_data/Statistical_analysis_LowGasUsed.py:130 | the KW table says "Significant differences" followed by its scope (" among quintiles" in the two Statistical_analysis scripts, nothing in Phase 1, line 86 there) exactly when p < 0.05, and "No significant differences" with that scope otherwise |
| Stats.KruskalMessage | Latency_Categorize_data/Latency_analysis_each_function.py:137-140 | a post-hoc analysis is recommended exactly when p < 0.05; otherwise the message says no significant differences were detected in the column |
| Cliffs.Row | Latency_Categorize_data/Statistical_analysis_LowGasUsed.py:17 | the pairs of one value of the first sample with every value of the second, in order |
| Cliffs.Column | Latency_Categorize_data/Statistical_analysis_LowGasUsed.py:17 | the pairs of every value of a sample with one fixed value, in order |
| Cliffs.AllPairs | Latency_Categorize_data/Statistical_analysis_LowGasUsed.py:17 | definition: the pairs `(x, y) for x in lst1 for y in lst2`, first sample outer; its length, order and members are AllPairsLength, AllPairsAt and AllPairsMember |
| Cliffs.Concordant | Latency_Categorize_data/Statistical_analysis_LowGasUsed.py:18 | definition: the number of pairs with x > y; bounded with Discordant by CountsBounded |
| Cliffs.Discordant | Latency_Categorize_data/Statistical_analysis_LowGasUsed.py:19 | definition: the number of pairs with x < y; swapped with Concordant by ConcordantSwap |
| Cliffs.CliffsDelta | Latency_Categorize_data/Statistical_analysis_LowGasUsed.py:13-21 | definition: (concordant - discordant) / (n1 * n2) over non-empty samples (an empty one is the division error carried by PairTable.MakeRow); its range, sign, antisymmetry and extremes are the Delta lemmas below |
| Cliffs.AllPairsLength | Latency_Categorize_data/Statistical_analysis_LowGasUsed.py:17 | the Cartesian product has n1 * n2 pairs |
| Cliffs.AllPairsAt | Latency_Categorize_data/Statistical_analysis_LowGasUsed.py:17 | (xs[i], ys[j]) sits at position i * n2 + j: first sample outer, second inner |
| Cliffs.AllPairsMember | Latency_Categorize_data/Statistical_analysis_LowGasUsed.py:17 | every pair of the product is (xs[i], ys[j]) for some i and j |
| Cliffs.CountsBounded | Latency_Categorize_data/Statistical_analysis_LowGasUsed.py:18-19 | larger pairs plus smaller pairs never exceed all pairs, because ties count for neither |
| Cliffs.CountGreaterAppend | Latency_Categorize_data/Statistical_analysis_LowGasUsed.py:18 | the concordant count of two runs of pairs is the sum of their counts |
| Cliffs.CountLessAppend | Latency_Categorize_data/Statistical_analysis_LowGasUsed.py:19 | the discordant count of two runs of pairs is the sum of their counts |
| Cliffs.CountGreaterAll | Latency_Categorize_data/Statistical_analysis_LowGasUsed.py:18 | every pair is larger-first exactly when the concordant count equals the number of pairs |
| Cliffs.CountGreaterByColumn | Latency_Categorize_data/Statistical_analysis_LowGasUsed.py:17-18 | splitting the second sample at its first value splits the concordant count accordingly |
| Cliffs.ColumnRowCount | Latency_Categorize_data/Statistical_analysis_LowGasUsed.py:18-19 | comparing values with x from the left counts the same pairs as comparing x with them from the right, reversed |
| Cliffs.ConcordantSwap | Latency_Categorize_data/Statistical_analysis_LowGasUsed.py:17-19 | exchanging the two samples exchanges the concordant and discordant counts |
| Cliffs.DeltaRange | Latency_Categorize_data/Statistical_analysis_LowGasUsed.py:13-21 | concordant plus discordant is at most n1 * n2, so delta lies in [-1, 1] |
| Cliffs.DeltaSign | Latency_Categorize_data/Statistical_analysis_LowGasUsed.py:20 | delta is negative, zero or positive exactly as discordant pairs outnumber, equal or are outnumbered by concordant ones |
| Cliffs.DeltaAntisymmetric | Latency_Categorize_data/Statistical_analysis_LowGasUsed.py:13-21 | swapping the two samples negates delta |
| Cliffs.DeltaSelfZero | Latency_Categorize_data/Statistical_analysis_LowGasUsed.py:13-21 | a sample compared with itself has delta 0 |
| Cliffs.DeltaOneIffDominates | Latency_Categorize_data/Statistical_analysis_HighGasUsed.py:11-19 | delta is 1 exactly when every value of the first sample exceeds every value of the second |
| Cliffs.DeltaMinusOneIffDominated | Latency_Categorize_data/Statistical_analysis_HighGasUsed.py:11-19 | delta is -1 exactly when every value of the first sample is below every value of the second |
| Cliffs.LowestVersusHighestQuintile | Latency_Categorize_data/Statistical_analysis_LowGasUsed.py:198-203 | a quintile of latencies 1 against a quintile of latencies 100 gives delta -1 |
| Quintiles.Label | Latency_Categorize_data/Latency_addition+selection_analysis_Phase1.py:75 | quintile q is labelled "Q" followed by q + 1 |
| Quintiles.Observations | Latency_Categorize_data/Latency_breach_penalty_analysis_Phase2.py:131-132 | record i pairs the factor value, the latency and the quintile label of row i of the frame |
| Quintiles.Latencies | Latency_Categorize_data/Latency_addition+selection_analysis_Phase1.py:78-80 | the latencies of one quintile group, after dropna, are never more than the records |
| Quintiles.FactorValues | Latency_Categorize_data/Latency_breach_penalty_analysis_Phase2.py:138 | the factor values of one quintile group, after dropna, in record order and never more than the records; their members are given by FactorValuesMembership and their emptiness by FactorValuesNonEmpty |
| Quintiles.LatenciesMembership | Latency_Categorize_data/Latency_addition+selection_analysis_Phase1.py:78-80 | a value is in a quintile's latency group exactly when some record of that quintile has that latency |
| Quintiles.FactorValuesMembership | Latency_Categorize_data/Latency_breach_penalty_analysis_Phase2.py:138 | a value is in a quintile's factor values exactly when some record of that quintile has that factor value |
| Quintiles.FactorValuesNonEmpty | Latency_Categorize_data/Latency_breach_penalty_analysis_Phase2.py:138-141 | a quintile's factor values are non-empty exactly when some record of that quintile has a factor value |
| Quintiles.LatenciesCount | Latency_Categorize_data/Latency_breach_penalty_analysis_Phase2.py:146 | the Count column equals the number of records of the quintile whose latency is present |
| Quintiles.CollectGroups | Latency_Categorize_data/Latency_breach_penalty_analysis_Phase2.py:156-158 | `groupby(observed=False)` yields five groups, one per label Q1..Q5, each that quintile's latencies |
| Quintiles.Summarize | Latency_Categorize_data/Latency_addition+selection_analysis_Phase1.py:101-133 | the summary loop produces the summary specification over the five quintiles |
| Quintiles.SummaryUpTo | Latency_Categorize_data/Latency_breach_penalty_analysis_Phase2.py:135-153 | definition: the rows of the quintiles below n that have both factor values and latencies, in quintile order, each with its latency count; characterised by SummaryRowsValid, SummaryComplete and SummaryRowIffRecords |
| Quintiles.SummaryRowsValid | Latency_Categorize_data/Latency_breach_penalty_analysis_Phase2.py:135-153 | every summary row is a quintile with both factor values and latencies, its count is positive, and the rows are in quintile order |
| Quintiles.SummaryComplete | Latency_Categorize_data/Latency_breach_penalty_analysis_Phase2.py:135-153 | every quintile with both factor values and latencies has a summary row |
| Quintiles.EmptyQuintileSkipped | Latency_Categorize_data/Latency_addition+selection_analysis_Phase1.py:121-123 | a quintile without latencies or without factor values gets no summary row |
| Quintiles.SummaryRowIffRecords | Latency_Categorize_data/Latency_breach_penalty_analysis_Phase2.py:135-141 | the summary has a row for quintile q exactly when some record of q has a factor value and some record of q has a latency; otherwise the loop's `continue` skips q |
| Quintiles.Unique | Latency_Categorize_data/Latency_analysis_each_function.py:132 | `unique()` holds exactly the values of the column, each once |
| Quintiles.FirstIndex | Latency_Categorize_data/Latency_analysis_each_function.py:132 | the position of a value's first occurrence |
| Quintiles.UniqueFirstAppearanceOrder | Latency_Categorize_data/Latency_analysis_each_function.py:132 | `unique()` lists the values in the order of their first appearance |
| Quintiles.LatenciesWithLabel | Latency_Categorize_data/Latency_analysis_each_function.py:133 | the latencies of the rows with one label are never more than the rows |
| Quintiles.KruskalGroups | Latency_Categorize_data/Latency_analysis_each_function.py:132-133 | one latency group per distinct label, in first-appearance order, each holding that label's rows |
| Quintiles.LatenciesWithLabelNonEmpty | Latency_Categorize_data/Latency_analysis_each_function.py:133 | a label's group is non-empty exactly when some row carries the label |
| Quintiles.LatenciesWithLabelMembership | Latency_Categorize_data/Latency_analysis_each_function.py:133 | a latency is in a label's group exactly when some row with that label has that latency |
| Quintiles.QuintileColumns.constructor | Latency_Categorize_data/Latency_addition+selection_analysis_Phase1.py:317 | the frame starts with no quintile columns |
| Quintiles.QuintileColumns.Assign | Latency_Categorize_data/Latency_addition+selection_analysis_Phase1.py:75 | assigning a qcut column replaces that column and leaves every other column unchanged |
| Quintiles.QuintileColumns.EnsureAssigned | Latency_Categorize_data/Latency_addition+selection_analysis_Phase1.py:111-114 | an existing quintile column is reused unchanged; a missing one is assigned |
| Quintiles.QuintileColumn | Latency_Categorize_data/Latency_addition+selection_analysis_Phase1.py:111 | the quintile column's name is the factor's name followed by "_Q" |
| Factors.QuintileColumnInjective | Latency_Categorize_data/Latency_addition+selection_analysis_Phase1.py:111 | different factors get different quintile columns |
| Factors.AssignAll | Latency_Categorize_data/Latency_addition+selection_analysis_Phase1.py:63-95 | after the KW loop, every factor has a quintile column, and no column that existed before is lost |
| Factors.AssignAllLabels | Latency_Categorize_data/Latency_addition+selection_analysis_Phase1.py:75 | when factor names are distinct, each factor's column holds its own labels |
| Factors.AssignAllFits | Latency_Categorize_data/Latency_addition+selection_analysis_Phase1.py:75 | assigned quintile columns have as many rows as the frame |
| Factors.ColumnObservations | Latency_Categorize_data/Latency_addition+selection_analysis_Phase1.py:153-158 | a later step reads the labels stored in the frame's quintile column, row by row |
| Factors.PerFactor | Latency_Categorize_data/Latency_addition+selection_analysis_Phase1.py:63-95 | a table built factor by factor (the KW tables of Phase 1 and of the two Statistical_analysis scripts) has one row per factor, row i being the row of factor i |
| PairTable.RowPairsContents | Latency_Categorize_data/Statistical_analysis_LowGasUsed.py:196-197 | the inner loop of row i visits exactly the pairs (i, j) with i < j < k, in order |
| PairTable.PairsBeforeMembership | Latency_Categorize_data/Statistical_analysis_LowGasUsed.py:196-197 | the pairs visited before row i are exactly the pairs a < b < k with a < i |
| PairTable.PairsBeforeBounds | Latency_Categorize_data/Statistical_analysis_LowGasUsed.py:196-197 | every visited pair is a < b < k |
| PairTable.PairsBeforeOrdered | Latency_Categorize_data/Statistical_analysis_LowGasUsed.py:196-197 | the pairs are visited in strictly increasing lexicographic order |
| PairTable.ComparisonPairsMembership | Latency_Categorize_data/Statistical_analysis_HighGasUsed.py:146-147 | the nested loop visits every pair a < b < k and no other |
| PairTable.ComparisonPairsOrdered | Latency_Categorize_data/Statistical_analysis_HighGasUsed.py:146-147 | the nested loop visits pairs in strictly increasing order, each once |
| PairTable.PairsBeforeLength | Latency_Categorize_data/Statistical_analysis_LowGasUsed.py:196-197 | the rows before row i together hold the pair counts of those rows |
| PairTable.ComparisonPairsLength | Latency_Categorize_data/Statistical_analysis_LowGasUsed.py:196-197 | k groups give k(k-1)/2 pairs |
| PairTable.FivePairs | Latency_Categorize_data/Latency_addition+selection_analysis_Phase1.py:169-172 | five quintiles give the ten pairs (Q1, Q2) .. (Q4, Q5) in that order |
| PairTable.Comparison | Latency_Categorize_data/Latency_addition+selection_analysis_Phase1.py:185 | a row is labelled "Qa vs Qb" from the quintile labels of its two groups |
| PairTable.MakeRow | Latency_Categorize_data/Statistical_analysis_LowGasUsed.py:198-207 | definition: the row of pair (i, j): its "Qa vs Qb" label, its Dunn p-value and, as the script's policy says, delta of the two groups or nothing; an error when delta is needed and a group is empty; contents stated by MakeRowContents |
| PairTable.MakeRowContents | Latency_Categorize_data/Statistical_analysis_LowGasUsed.py:198-207 | a row fails exactly when its policy needs delta and one of its groups is empty, naming that group; otherwise it carries the label and p-value, "Yes" exactly when p < 0.05, and a delta in [-1, 1] exactly when the policy shows one |
| PairTable.PairsBeforeIsPrefix | Latency_Categorize_data/Statistical_analysis_LowGasUsed.py:196-197 | the pairs visited earlier are a prefix of the pairs visited later |
| PairTable.RowFn | Latency_Categorize_data/Statistical_analysis_LowGasUsed.py:198-207 | the row builder is defined on every pair a < b of the matrix |
| PairTable.PairIndexBound | Latency_Categorize_data/Statistical_analysis_LowGasUsed.py:196-197 | a pair of row a comes before every pair of a later row |
| PairTable.ComparisonPairsAt | Latency_Categorize_data/Statistical_analysis_LowGasUsed.py:196-197 | pair (a, b) sits at its computed position in the enumeration |
| PairTable.RowsBeforeLength | Latency_Categorize_data/Statistical_analysis_LowGasUsed.py:196-207 | a table that has not failed holds one row per pair visited so far |
| PairTable.RowsWithinLength | Latency_Categorize_data/Statistical_analysis_LowGasUsed.py:196-207 | mid-way through an inner loop, a table that has not failed holds one row per pair visited |
| PairTable.RowsBeforeAt | Latency_Categorize_data/Statistical_analysis_LowGasUsed.py:196-207 | the row of pair (a, b) sits at the pair's position in the enumeration |
| PairTable.RowsWithinAt | Latency_Categorize_data/Statistical_analysis_LowGasUsed.py:196-207 | mid-way through an inner loop, each visited pair's row sits at that pair's position |
| PairTable.RowsBeforeFailure | Latency_Categorize_data/Statistical_analysis_LowGasUsed.py:196-207 | a table fails exactly when a visited pair's row fails, and then with that row's error |
| PairTable.RowsWithinFailure | Latency_Categorize_data/Statistical_analysis_LowGasUsed.py:196-207 | mid-way through an inner loop, the table fails exactly when a visited pair's row fails |
| PairTable.RowsBeforeAgree | Latency_Categorize_data/Statistical_analysis_LowGasUsed.py:196-207 | every row of a table built so far agrees with the delta policy |
| PairTable.RowsWithinAgree | Latency_Categorize_data/Statistical_analysis_LowGasUsed.py:196-207 | mid-way through an inner loop, every row agrees with the delta policy |
| PairTable.PairTableOutcome | Latency_Categorize_data/Statistical_analysis_LowGasUsed.py:196-207 | the whole table fails exactly when the row of some pair fails, and then with such a row's error |
| PairTable.PairTableLayout | Latency_Categorize_data/Statistical_analysis_LowGasUsed.py:196-207 | a table that does not fail has k(k-1)/2 rows; the row of pair (a, b) is at (a, b)'s position |
| PairTable.PairTableRowsAgree | Latency_Categorize_data/Latency_addition+selection_analysis_Phase1.py:169-188 | every row says "Yes" exactly when p < 0.05, shows delta exactly when the policy does, and any shown delta is in [-1, 1] |
| PairTable.PairTableComparisons | Latency_Categorize_data/Statistical_analysis_HighGasUsed.py:146-157 | a table that does not fail has k(k-1)/2 rows, and pair (a, b)'s row is labelled by the quintiles of groups a and b |
| PairTable.Comparisons | Latency_Categorize_data/Latency_addition+selection_analysis_Phase1.py:185 | the comparison column lists each row's label, in table order |
| PairTable.FixedQuintileRow | Latency_Categorize_data/Latency_addition+selection_analysis_Phase1.py:169-185 | with the matrix indexed Q1..Q5, pair (a, b)'s row is labelled "Qa vs Qb" |
| PairTable.FixedQuintilesEmptyGroup | Latency_Categorize_data/Latency_breach_penalty_analysis_Phase2.py:185-197 | when delta is computed for every pair, the table fails exactly when some quintile has no latency |
| PairTable.TenLabels | Latency_Categorize_data/Latency_addition+selection_analysis_Phase1.py:169-185 | ten rows labelled by their pairs read Q1 vs Q2, Q1 vs Q3, ..., Q4 vs Q5 |
| PairTable.FixedQuintileComparisons | Latency_Categorize_data/Latency_breach_penalty_analysis_Phase2.py:185-207 | a table over Q1..Q5 that does not fail has the ten rows Q1 vs Q2 .. Q4 vs Q5, in that order |
| PairTable.ErrorPersistsWithin | Latency_Categorize_data/Statistical_analysis_LowGasUsed.py:196-207 | once a row has failed, the rest of its inner loop keeps that error |
| PairTable.ErrorPersistsBefore | Latency_Categorize_data/Statistical_analysis_LowGasUsed.py:196-207 | once a row has failed, the later rows keep that error up to the finished table |
| PairTable.BuildRows | Latency_Categorize_data/Statistical_analysis_LowGasUsed.py:196-207 | the nested loop `for i: for j > i` builds the specified table, and the first failing row stops it |
| PairTable.PairTableSpec | Latency_Categorize_data/Statistical_analysis_LowGasUsed.py:196-207 | definition: MakeRow over the pairs i < j in nested-loop order, stopping at the first failing row; its layout and outcome are PairTableLayout and PairTableOutcome |
| PairTable.BuildPairTable | Latency_Categorize_data/Latency_addition+selection_analysis_Phase1.py:169-188 | the pair table a script builds equals the specified table for its matrix and policy |
| Steps.ConcatErrorPersists | Latency_Categorize_data/Statistical_analysis_LowGasUsed.py:151-242 | once a step of a report loop has failed, later steps do not change the outcome |
| Steps.ConcatStep | Latency_Categorize_data/Latency_addition+selection_analysis_Phase1.py:341-363 | one more step appends its output, or its error becomes the outcome of the whole loop |
| Steps.ConcatOutcome | Latency_Categorize_data/Latency_breach_penalty_analysis_Phase2.py:281-337 | a report loop succeeds exactly when every step does; a failing loop has the error of its first failing step |
| Steps.ConcatLength | Latency_Categorize_data/Latency_addition+selection_analysis_Phase1.py:341-363 | a successful report loop's output length is the sum of its steps' output lengths |
| EachFunction.KruskalAndSummary | Latency_Categorize_data/Latency_analysis_each_function.py:131-142 | the KW test gets one group per distinct label, in first-appearance order (KruskalGroups); each group is non-empty and holds exactly the latencies of the rows with that label; the message recommends a post-hoc analysis exactly when p < 0.05 |
| EachFunction.StepsUpTo | Latency_Categorize_data/Latency_analysis_each_function.py:165-170 | definition: for each of the first n group columns, its KW step and then its Dunn step; stated by StepsUpToOrder |
| EachFunction.AnalysisSteps | Latency_Categorize_data/Latency_analysis_each_function.py:158-185 | definition: no step on an empty frame, otherwise the steps of the three group columns; stated by AnalysisStepsOrder |
| EachFunction.StepsUpToOrder | Latency_Categorize_data/Latency_analysis_each_function.py:165-170 | the first n columns run 2n steps: each column's KW test, then its Dunn test |
| EachFunction.AnalysisStepsOrder | Latency_Categorize_data/Latency_analysis_each_function.py:158-185 | an empty frame runs no test; otherwise six steps run, KW then Dunn for each column in turn, and the Dunn test runs whatever p is |
| StatisticalReport.KwTableRow | Latency_Categorize_data/Statistical_analysis_LowGasUsed.py:126-131 | a KW row carries the feature, H and p, and says "Significant differences among quintiles" exactly when p < 0.05 |
| StatisticalReport.InterpretationLine | Latency_Categorize_data/Statistical_analysis_LowGasUsed.py:143-146 | a feature's line claims differences exactly when its p-value is below 0.05 |
| StatisticalReport.InterpretationLines | Latency_Categorize_data/Statistical_analysis_LowGasUsed.py:139-147 | there is one interpretation line per feature, in order |
| StatisticalReport.InterpretationParagraph | Latency_Categorize_data/Statistical_analysis_LowGasUsed.py:139-147 | the interpretation loop produces the specified lines |
| StatisticalReport.InterpretationAgreesWithTable | Latency_Categorize_data/Statistical_analysis_LowGasUsed.py:126-147 | each interpretation line claims differences exactly when the feature's KW row says there are significant differences |
| StatisticalReport.HighGasInterpretation | Latency_Categorize_data/Statistical_analysis_HighGasUsed.py:94-97 | the HighGas paragraph always claims no difference for Block Size, whatever the results |
| StatisticalReport.HighGasInterpretationIgnoresResults | Latency_Categorize_data/Statistical_analysis_HighGasUsed.py:82-97 | with a Block Size p of 0.01, the table reports significance but the paragraph denies it |
| StatisticalReport.SectionOutputs | Latency_Categorize_data/Statistical_analysis_LowGasUsed.py:151-242 | each feature contributes its section, or the error of its pair table |
| StatisticalReport.SectionSpec | Latency_Categorize_data/Statistical_analysis_LowGasUsed.py:151-242 | definition: a feature's section with its KW result and, only when p < 0.05, its pair table with delta for the significant pairs; stated by SectionGate |
| StatisticalReport.ScriptInterpretation | Latency_Categorize_data/Statistical_analysis_HighGasUsed.py:93-97 | definition: the LowGasUsed per-feature lines (Statistical_analysis_LowGasUsed.py:138-147) or the HighGasUsed fixed paragraph |
| StatisticalReport.ReportSpec | Latency_Categorize_data/Statistical_analysis_LowGasUsed.py:92-246 | definition: the KW table, the chosen script's interpretation and the sections, the first failing section ending the analysis; stated by ReportOutcome |
| StatisticalReport.BuildSection | Latency_Categorize_data/Statistical_analysis_LowGasUsed.py:151-242 | a feature's section is built exactly as specified: a pair table only past the KW gate |
| StatisticalReport.KruskalTable | Latency_Categorize_data/Statistical_analysis_LowGasUsed.py:126-131 | the KW loop builds the specified table |
| StatisticalReport.PerformStatisticalAnalysis | Latency_Categorize_data/Statistical_analysis_LowGasUsed.py:92-246 | for either script (the HighGasUsed version is Statistical_analysis_HighGasUsed.py:48-247), the analysis produces the KW table, that script's interpretation and the sections as specified; the first failing section stops it |
| StatisticalReport.SectionGate | Latency_Categorize_data/Statistical_analysis_LowGasUsed.py:185-207 | a section has a pair table exactly when p < 0.05 (not at 0.05); the table has k(k-1)/2 rows in pair order, with delta in [-1, 1] exactly for significant pairs |
| StatisticalReport.SectionOfObservedGroups | Latency_Categorize_data/Statistical_analysis_LowGasUsed.py:185-207 | when every group of the Dunn matrix has a record with a latency, as the groups `posthoc_dunn` finds in the data do, the section never fails |
| StatisticalReport.ReportOutcome | Latency_Categorize_data/Statistical_analysis_LowGasUsed.py:126-147 | the analysis fails exactly when some section fails; when it succeeds, the LowGasUsed line of each feature claims differences exactly when the feature's KW row reports them, while the HighGasUsed paragraph is the fixed text whatever the p-values |
| Phase1Report.KwTableRow | Latency_Categorize_data/Latency_addition+selection_analysis_Phase1.py:84-93 | the interpretation follows the raw p; the shown H and p are within half a unit of the 4th and 6th decimal place |
| Phase1Report.KruskalTestForFactors | Latency_Categorize_data/Latency_addition+selection_analysis_Phase1.py:63-95 | assigns every factor's quintile column and returns the specified KW table |
| Phase1Report.FactorOutputs | Latency_Categorize_data/Latency_addition+selection_analysis_Phase1.py:341-363 | each factor contributes its gated pages, or its pair table's error |
| Phase1Report.FactorPagesOf | Latency_Categorize_data/Latency_addition+selection_analysis_Phase1.py:346-363 | a factor's pages are built as specified, reusing its quintile column, and the frame's columns are unchanged |
| Phase1Report.Phase1ReportOf | Latency_Categorize_data/Latency_addition+selection_analysis_Phase1.py:301-363 | the report is the KW page followed by the pages of every factor, unless a factor's pages fail |
| Phase1Report.BuildReport | Latency_Categorize_data/Latency_addition+selection_analysis_Phase1.py:301-363 | the report (gated on the Interpretation column) equals the specified report, and every factor's quintile column is assigned |
| Phase1Report.Phase1Report | Latency_Categorize_data/Latency_addition+selection_analysis_Phase1.py:301-363 | definition: the KW page, then for each factor passing the gate (raw or as written) its summary page and its pair-table page; the first failing table ends the report; stated by PagesOutcome and PassingSum |
| Phase1Report.GateAsWritten | Latency_Categorize_data/Latency_addition+selection_analysis_Phase1.py:343-346 | definition: the page gate as written: the p-value read back from the KW table, rounded to 6 places, is below 0.05; compared with GateIntended by GateThresholds |
| Phase1Report.GateIntended | Latency_Categorize_data/Latency_addition+selection_analysis_Phase1.py:86 | definition: the gate the Interpretation column applies: the raw p-value is below 0.05 |
| Phase1Report.GateThresholds | Latency_Categorize_data/Latency_addition+selection_analysis_Phase1.py:343-346 | the gate as written passes exactly p < 0.0499995; the intended gate passes exactly the factors the table calls significant |
| Phase1Report.RoundedGateHidesSignificantFactor | Latency_Categorize_data/Latency_addition+selection_analysis_Phase1.py:86-93 | a factor with p = 0.04999975 is listed as significant with p shown as 0.05, but the gate as written gives it no pages |
| Phase1Report.Passing | Latency_Categorize_data/Latency_addition+selection_analysis_Phase1.py:341-346 | no more factors pass the gate than there are factors |
| Phase1Report.FactorPagesOutcome | Latency_Categorize_data/Latency_addition+selection_analysis_Phase1.py:346-363 | a factor has no pages when it fails the gate; when it passes, it has a summary page and its pair-table page, unless the table fails |
| Phase1Report.PassingSum | Latency_Categorize_data/Latency_addition+selection_analysis_Phase1.py:341-363 | two pages per passing factor add up to twice the number of passing factors |
| Phase1Report.PagesOutcome | Latency_Categorize_data/Latency_addition+selection_analysis_Phase1.py:341-363 | the factor pages fail exactly when a passing factor's pair table fails; otherwise they are two pages per passing factor |
| Phase1Report.FactorTableRows | Latency_Categorize_data/Latency_addition+selection_analysis_Phase1.py:169-188 | a pair table has the ten rows Q1 vs Q2 .. Q4 vs Q5; each says "Yes" and shows a delta in [-1, 1] exactly when p < 0.05 |
| Phase1Report.FactorTable | Latency_Categorize_data/Latency_addition+selection_analysis_Phase1.py:139-188 | definition: the pair table of a factor over the quintile column stored in the frame, delta computed for every pair and shown only for significant ones; stated by FactorTableRows |
| Phase2Report.QuintileGroups | Latency_Categorize_data/Latency_breach_penalty_analysis_Phase2.py:156-158 | the KW test gets five groups, one per quintile, each holding that quintile's latencies |
| Phase2Report.AnalyzeFactorSpec | Latency_Categorize_data/Latency_breach_penalty_analysis_Phase2.py:116-211 | definition: the summary rows, the KW result and, when p < 0.05, the pair table with delta for every pair; stated by AnalysisOutcome |
| Phase2Report.AnalyzeFactor | Latency_Categorize_data/Latency_breach_penalty_analysis_Phase2.py:116-211 | assigns the factor's quintile column, and the analysis equals the specified one over those labels |
| Phase2Report.GroupGuardNeverFires | Latency_Categorize_data/Latency_breach_penalty_analysis_Phase2.py:159-161 | the fewer-than-five-groups branch is never taken |
| Phase2Report.AnalysisOutcome | Latency_Categorize_data/Latency_breach_penalty_analysis_Phase2.py:116-211 | the analysis fails exactly when p < 0.05 and some quintile is empty; otherwise it has the summary and the KW result, and a ten-row table with deltas in [-1, 1] and "Yes" exactly for p < 0.05, present exactly when p < 0.05 |
| Phase2Report.FactorOutputs | Latency_Categorize_data/Latency_breach_penalty_analysis_Phase2.py:281-337 | each factor contributes its pages, or its analysis's error |
| Phase2Report.AnalysisPages | Latency_Categorize_data/Latency_breach_penalty_analysis_Phase2.py:299-337 | definition: a factor's summary page with its KW result, then its post-hoc page when p < 0.05; stated by FactorPagesShape |
| Phase2Report.Phase2Report | Latency_Categorize_data/Latency_breach_penalty_analysis_Phase2.py:281-337 | definition: the pages of each factor in turn, the first failing analysis ending the report; the loop BuildReportOneFactor is proved equal to it |
| Phase2Report.BuildReportOneFactor | Latency_Categorize_data/Latency_breach_penalty_analysis_Phase2.py:244-337 | the report equals the specified pages of every factor, and on success every factor's quintile column is assigned |
| Phase2Report.FactorPagesShape | Latency_Categorize_data/Latency_breach_penalty_analysis_Phase2.py:299-337 | a factor's summary page shows its KW result (never "N/A"); a post-hoc page follows exactly when p < 0.05; the boxplot page comes last |
| Frames.Select | Latency_Categorize_data/Statistical_analysis_LowGasUsed.py:46-56 | selecting columns keeps every row and blanks the fields of columns not selected |
| Frames.DropMissingHash | Latency_Categorize_data/Statistical_analysis_HighGasUsed.py:29-30 | filtering on the hash never adds rows |
| Frames.DropMissingHashKeeps | Latency_Categorize_data/Statistical_analysis_HighGasUsed.py:29-30 | the hash filter keeps exactly the rows that have a hash |
| Frames.ToKB | Latency_Categorize_data/Statistical_analysis_LowGasUsed.py:69-71 | each block row keeps gas price, count and hash, and its size in KB times 1024 is its size in bytes |
| Frames.KeepBytes | Latency_Categorize_data/Statistical_analysis_HighGasUsed.py:36-39 | each block row keeps its four fields, with the size left in bytes |
| Frames.ConcatFrames | Latency_Categorize_data/Statistical_analysis_LowGasUsed.py:62 | the concatenation is empty exactly when every part is |
| Frames.ConcatFramesColumns | Latency_Categorize_data/Statistical_analysis_LowGasUsed.py:62 | the concatenated frame has a column exactly when some part has it |
| Frames.ConcatFramesRows | Latency_Categorize_data/Statistical_analysis_LowGasUsed.py:62 | the concatenated frame holds a row exactly when some part holds it |
| Frames.ConcatRows | Latency_Categorize_data/Statistical_analysis_LowGasUsed.py:77 | the block data is empty exactly when every block part is |
| Frames.DropIncomplete | Latency_Categorize_data/Statistical_analysis_LowGasUsed.py:82-84 | `dropna` never adds rows |
| Frames.DropIncompleteKeeps | Latency_Categorize_data/Statistical_analysis_LowGasUsed.py:82-84 | `dropna` keeps exactly the rows with no missing field |
| Frames.DropIncompleteAppend | Latency_Categorize_data/Statistical_analysis_LowGasUsed.py:82-84 | `dropna` of two runs of rows is the two results one after the other |
| Frames.DropIncompleteNone | Latency_Categorize_data/Statistical_analysis_LowGasUsed.py:82-84 | rows that are all incomplete leave nothing behind |
| Frames.PositionalConcat | Latency_Categorize_data/Latency_breach_penalty_analysis_Phase2.py:96-100 | side by side, row i is placed beside row i, and the shorter frame is padded with missing values |
| Frames.Zip | Latency_Categorize_data/Latency_breach_penalty_analysis_Phase2.py:96-100 | the rows both frames have, paired by position |
| Frames.PositionalMergeIsZip | Latency_Categorize_data/Statistical_analysis_LowGasUsed.py:82 | after `dropna`, the padding is gone: the positional merge keeps at most as many rows as the shorter frame |
| Frames.Matches | Latency_Categorize_data/Statistical_analysis_LowGasUsed.py:84 | a block row joins only latency rows with its hash, never more than there are |
| Frames.MatchesComplete | Latency_Categorize_data/Statistical_analysis_LowGasUsed.py:84 | a block row joins exactly the latency rows whose hash equals its own |
| Frames.HashJoin | Latency_Categorize_data/Statistical_analysis_LowGasUsed.py:84 | definition: `pd.merge(how='inner', on='Transaction Hash')`, block rows outer, each joined with its matching latency rows; membership and size are HashJoinMembership and HashJoinSize |
| Frames.HashJoinMembership | Latency_Categorize_data/Statistical_analysis_HighGasUsed.py:42-46 | the inner join holds exactly the pairs of a block row and a latency row with equal keys |
| Frames.MatchesCount | Latency_Categorize_data/Statistical_analysis_HighGasUsed.py:42-46 | a block row produces as many joined rows as there are latency rows with its key |
| Frames.HashJoinSize | Latency_Categorize_data/Statistical_analysis_HighGasUsed.py:42-46 | the join size is the sum, over block rows, of the latency rows sharing each row's key |
| Frames.HashMergeRows | Latency_Categorize_data/Statistical_analysis_LowGasUsed.py:84 | after `dropna`, every joined row comes from both frames, is complete, and has one hash shared by both halves |
| Frames.InsertKey | Latency_Categorize_data/Statistical_analysis_LowGasUsed.py:34-38 | inserting a group key keeps the key list sorted and adds exactly that key |
| Frames.SortedKeys | Latency_Categorize_data/Statistical_analysis_LowGasUsed.py:34-38 | the group keys are strictly increasing |
| Frames.SortedKeysMembership | Latency_Categorize_data/Statistical_analysis_LowGasUsed.py:34-38 | a key is a group exactly when some row has it |
| Frames.FirstLatency | Latency_Categorize_data/Statistical_analysis_LowGasUsed.py:34-38 | definition: the latency of the first row of key k whose latency is present, as `first()` skips missing values; stated by FirstLatencyIsFirst |
| Frames.GroupRow | Latency_Categorize_data/Statistical_analysis_LowGasUsed.py:34-38 | definition: the grouped row of key k after `reset_index()`: its Iteration, its UserIndex when grouped by user, and FirstLatency |
| Frames.FirstLatencyIsFirst | Latency_Categorize_data/Statistical_analysis_LowGasUsed.py:34-38 | `first()` gives the latency of the earliest row of the key that has one, and is missing only when none has |
| Frames.GroupFirst | Latency_Categorize_data/Statistical_analysis_LowGasUsed.py:34-38 | grouping yields one row per sorted key, holding the key and its first latency |
| Frames.GroupFirstOneRowPerKey | Latency_Categorize_data/Latency_breach_penalty_analysis_Phase2.py:34-38 | grouped rows are in strictly increasing key order, one per key present, each with its key's first latency |
| Frames.NoUserIndexKeys | Latency_Categorize_data/Statistical_analysis_LowGasUsed.py:37-38 | grouping by Iteration alone gives every key UserIndex 0 |
| Frames.Collect | Latency_Categorize_data/Statistical_analysis_LowGasUsed.py:26-60 | a file loop inside a `try` collects at most one frame per file |
| Frames.CollectAppend | Latency_Categorize_data/Statistical_analysis_LowGasUsed.py:26-60 | looping over two lists of files collects the two results one after the other |
| Frames.CollectSkips | Latency_Categorize_data/Statistical_analysis_LowGasUsed.py:26-60 | a file that contributes nothing can be removed from the list without changing the result |
| Frames.CollectMembership | Latency_Categorize_data/Statistical_analysis_LowGasUsed.py:26-60 | a frame is collected exactly when some file loads to it |
| Frames.CollectOrFailOutcome | Latency_Categorize_data/Statistical_analysis_HighGasUsed.py:21-40 | a loop without a `try` succeeds exactly when every file loads; otherwise it has the error of the first failing file |
| Frames.CollectOrFailPrefixError | Latency_Categorize_data/Statistical_analysis_HighGasUsed.py:21-40 | an error among the first files is the error of the whole loop |
| Frames.CollectOrFailMembership | Latency_Categorize_data/Statistical_analysis_HighGasUsed.py:21-40 | in a loop that succeeds, a frame is collected exactly when some file loads to it |
| SharedLoader.LoadLatency | Latency_Categorize_data/Statistical_analysis_LowGasUsed.py:33-56 | a latency file is used exactly when it is read, has its latency column, and has Iteration (index mode) or the hash (hash mode); its frame has the latency column |
| SharedLoader.LoadBlock | Latency_Categorize_data/Statistical_analysis_LowGasUsed.py:64-75 | definition: a block file that is present and read with the four columns gives its rows with the size in KB; otherwise, inside the `try`, nothing |
| SharedLoader.Merge | Latency_Categorize_data/Statistical_analysis_LowGasUsed.py:79-89 | definition: an empty frame when either side is empty; otherwise the positional merge (index mode), the inner join on the hash (hash mode) or an empty frame, each followed by `dropna`; rows kept are stated by MergedRows |
| SharedLoader.ServiceData | Latency_Categorize_data/Statistical_analysis_LowGasUsed.py:23-90 | definition: the merge of the concatenated latency parts and block parts, each skipping files that fail; the loop method ProcessServiceData is proved equal to it |
| SharedLoader.ProcessServiceData | Latency_Categorize_data/Latency_breach+penalty_analysis_LowGasUsed_final.py:7-74 | the loader returns the specified merged frame |
| SharedLoader.IndexModeGroups | Latency_Categorize_data/Latency_analysis_each_function.py:82-92 | in index mode a file's frame has one row per key, in increasing key order, each with the key's first latency |
| SharedLoader.HashModeRowsHaveHashes | Latency_Categorize_data/Latency_addition+selection_analysis_HighGasUsed_final.py:7-40 | in hash mode every row of a file's frame comes from the file and has a hash |
| SharedLoader.NeitherModeLoadsNothing | Latency_Categorize_data/Statistical_analysis_LowGasUsed.py:48-54 | with neither switch set, no latency file is used |
| SharedLoader.SkippedFileIgnored | Latency_Categorize_data/Statistical_analysis_LowGasUsed.py:26-62 | a latency file that contributes nothing does not change the result |
| SharedLoader.PartsHaveLatency | Latency_Categorize_data/Statistical_analysis_LowGasUsed.py:46-62 | concatenated latency data with rows has the latency column |
| SharedLoader.MergedRows | Latency_Categorize_data/Statistical_analysis_LowGasUsed.py:80-87 | every merged row is complete; index mode keeps at most the shorter side's row count; hash mode pairs rows sharing a hash |
| HighGasLoader.LoadLatency | Latency_Categorize_data/Statistical_analysis_HighGasUsed.py:24-32 | a missing file is skipped; a file fails exactly when it is unreadable or lacks its latency column or the hash |
| HighGasLoader.LoadBlock | Latency_Categorize_data/Statistical_analysis_HighGasUsed.py:36-39 | a block file fails exactly when it is unreadable or lacks one of the four columns; otherwise its rows keep bytes |
| HighGasLoader.Merge | Latency_Categorize_data/Statistical_analysis_HighGasUsed.py:42-46 | definition: an empty frame when either side is empty, otherwise the inner join on the hash without `dropna`; stated by MergedRowsAreHashMatches |
| HighGasLoader.ServiceData | Latency_Categorize_data/Statistical_analysis_HighGasUsed.py:21-46 | definition: the first failing file ends the run with its error; otherwise the join of the concatenated parts; stated by ServiceDataSucceeds |
| HighGasLoader.ProcessServiceData | Latency_Categorize_data/Statistical_analysis_HighGasUsed.py:21-46 | the loader returns the specified merged frame, or the first error |
| HighGasLoader.ServiceDataSucceeds | Latency_Categorize_data/Statistical_analysis_HighGasUsed.py:21-46 | the run succeeds exactly when every file is missing or has the columns it selects |
| HighGasLoader.MergedRowsAreHashMatches | Latency_Categorize_data/Statistical_analysis_HighGasUsed.py:42-44 | without `dropna`, merged rows are exactly the block and latency pairs with equal keys, missing keys included |
| HighGasLoader.HashedRowsHaveHashes | Latency_Categorize_data/Statistical_analysis_HighGasUsed.py:29-30 | with the hash filter, every merged row has a hash |
| Phase1Loader.LoadLatency | Latency_Categorize_data/Latency_addition+selection_analysis_Phase1.py:21-35 | a file is skipped when missing or lacking its latency column; it fails when unreadable or, with hashes, lacking the hash column |
| Phase1Loader.LoadBlock | Latency_Categorize_data/Latency_addition+selection_analysis_Phase1.py:39-50 | a block file fails exactly when it is unreadable or lacks a `usecols` column; otherwise its sizes are in KB |
| Phase1Loader.Merge | Latency_Categorize_data/Latency_addition+selection_analysis_Phase1.py:52-57 | definition: an empty frame when either side is empty; otherwise the inner join on the hash followed by `dropna`, which raises when the latency data has no hash column; stated by HashedRowsComplete and ServiceDataFails |
| Phase1Loader.ServiceData | Latency_Categorize_data/Latency_addition+selection_analysis_Phase1.py:16-57 | definition: the first failing file ends the run with its error; otherwise the merge of the concatenated parts; stated by ServiceDataFails and WithoutHashesNoMerge |
| Phase1Loader.ProcessServiceData | Latency_Categorize_data/Latency_addition+selection_analysis_Phase1.py:16-57 | the loader returns the specified merged frame, or the first error |
| Phase1Loader.NoHashColumnWithoutHashes | Latency_Categorize_data/Latency_addition+selection_analysis_Phase1.py:28-33 | without hashes, the latency data never has the hash column |
| Phase1Loader.WithoutHashesNoMerge | Latency_Categorize_data/Latency_addition+selection_analysis_Phase1.py:52-57 | without hashes, a run that succeeds returns the empty frame |
| Phase1Loader.HashedRowsComplete | Latency_Categorize_data/Latency_addition+selection_analysis_Phase1.py:52-57 | with hashes, every merged row is complete and both halves share the hash |
| Phase1Loader.ServiceDataFails | Latency_Categorize_data/Latency_addition+selection_analysis_Phase1.py:16-57 | the run fails exactly when a file fails, or when, without hashes, both sides have rows and the join lacks its key |
| Phase2Loader.LoadLatency | Latency_Categorize_data/Latency_breach_penalty_analysis_Phase2.py:26-75 | a file is used exactly when it is read, has its latency column and, in hash mode, the hash; its frame has the hash column exactly in hash mode |
| Phase2Loader.Merge | Latency_Categorize_data/Latency_breach_penalty_analysis_Phase2.py:95-110 | definition: an empty frame when either side is empty; otherwise the positional merge (index mode, and with neither mode set), or the inner join on the hash, each followed by `dropna`; the join raises when the latency data lacks the hash column, which ServiceDataSucceeds shows cannot happen; rows kept are stated by MergedRows |
| Phase2Loader.ServiceData | Latency_Categorize_data/Latency_breach_penalty_analysis_Phase2.py:15-110 | definition: the merge of the concatenated parts, each skipping files that fail; stated by ServiceDataSucceeds and MergedRows |
| Phase2Loader.ProcessServiceData | Latency_Categorize_data/Latency_breach_penalty_analysis_Phase2.py:15-110 | the loader returns the specified merge result |
| Phase2Loader.ServiceDataSucceeds | Latency_Categorize_data/Latency_breach_penalty_analysis_Phase2.py:101-103 | the join never raises, because every file used in hash mode has the hash column |
| Phase2Loader.MergedRows | Latency_Categorize_data/Latency_breach_penalty_analysis_Phase2.py:95-110 | the run succeeds; merged rows are complete; a positional merge keeps at most the shorter side's rows; a join pairs rows sharing a hash |

## Left out

- File access (`os.path.exists`, `pd.read_csv`) and printing are not modelled. A file is an input value: missing, unreadable, or columns and rows. Warnings and error messages are not modelled.
- `pd.qcut` is not modelled: each row's quintile label is an input. Bin edges, ties and the duplicate-edge error are therefore not captured.
- The Kruskal-Wallis and Dunn tests come from libraries, so their statistic, p-values and p-value matrix are inputs. Any p-value adjustment and NaN p-values are not modelled.
- Phase 1 and Phase 2 import `cliffs_delta` from a package, and that package's code is not part of this model. Its result is taken to be the formula the two statistical scripts define.
- The per-function script's quintile labels are taken to be present on every merged row, so there are no missing labels or NaN latencies in its groups.
- Means, medians, standard deviations, number formatting, PDF and table rendering, cover pages, plots and `generate_summary_table` are not modelled. The exceptions are the rounding of H and p in the Phase 1 table, and the text of interpretation lines and messages.
- The statistical scripts qcut the same feature again for the post-hoc test. The model uses the same labels for both steps.
- Phase 1 finds a factor's KW row by name (`kw_df['Factor'] == factor_col`). The model takes it by position, which is the same when factor names are distinct.
- For the inner join, only membership and row counts are proved; pandas' order of joined rows is not. `groupby(...).first()` is modelled on the latency column only.
- The scripts' module-level configuration (file lists, the latency column of each service) and the module-level concatenation of two services' frames are not modelled.
- A report that stops with an error may leave a partially written PDF, and this is not modelled. `Frames.LoadError` does not carry the missing column's name.
- `pd.concat(axis=1)` with neither mode in Phase 2 uses the row labels that `ignore_index=True` produced (0..n-1), so it is modelled as the positional merge.
- The Dunn matrix's groups are an input, so the model does not derive that `posthoc_dunn` indexes only groups present in the data. A section can therefore fail with an empty group in the model; StatisticalReport.SectionOfObservedGroups proves it does not when every matrix group is present, as in the scripts.
- Phase1Report.BuildReport: gates on the Interpretation column (the raw p-value), not on the rounded p-value the code reads back. The as-written gate is modelled beside it and compared under "Findings".
- Phase1Report.KwTableRow: states that H and p are within half a unit of their rounding, not their exact decimal digits, because float representation is not modelled.

## Findings

| source | as written | input that shows it | evidently intended | confidence | as-written member | corrected member |
|---|---|---|---|---|---|---|
| Latency_Categorize_data/Statistical_analysis_HighGasUsed.py:94-97 | the interpretation paragraph is a fixed text that claims differences for Gas Price and Transaction Count and none for Block Size, whatever the KW results | a Block Size KW p-value of 0.01: the table says "Significant differences among quintiles" while the paragraph says Block Size shows none | one line per feature derived from its p-value, as the LowGas script writes it | not executed | StatisticalReport.HighGasInterpretationIgnoresResults | StatisticalReport.InterpretationAgreesWithTable |
| Latency_Categorize_data/Latency_addition+selection_analysis_Phase1.py:343-346 | the report gate compares the p-value read back from the KW table, where it was rounded to 6 places (line 91), with 0.05 | p = 0.04999975: the table's Interpretation says "Significant differences", the shown p is 0.05, and the factor gets no summary or post-hoc pages | gate on the raw p-value, as the Interpretation column does (line 86) | not executed | Phase1Report.RoundedGateHidesSignificantFactor | Phase1Report.GateThresholds |
