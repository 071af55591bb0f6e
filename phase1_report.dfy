/**
 * The report of the Phase 1 script: a Kruskal-Wallis table over every
 * factor (`kruskal_test_for_factors`), then, for each factor that passes
 * the gate of `build_report`, a quintile summary page
 * (`summary_stats_for_factor`) and a page with the pair table of
 * `produce_posthoc_cliffs_table`.
 *
 * As written, the gate reads the p-value back from the table, where it
 * has been rounded to 6 places, while the table's Interpretation column
 * looks at the raw p-value; the two disagree for p in [0.0499995, 0.05).
 * Both gates are modelled; BuildReport follows the Interpretation column.
 */
module Phase1Report {
  import opened Wrappers
  import opened Stats
  import opened Quintiles
  import opened PairTable
  import opened Factors
  import opened Steps

  /** A row of the Kruskal-Wallis table: H rounded to 4 places, p rounded to 6, and the interpretation. */
  datatype KwRow = KwRow(factor: string, h: real, p: real, interpretation: string)

  /** The table row of one factor: the interpretation comes from the raw p-value, the shown numbers are rounded. */
  function KwTableRow(f: Factor): (row: KwRow)
    ensures row.factor == f.name
    ensures row.interpretation == "Significant differences" <==> Significant(f.kw.p)
    ensures row.interpretation == "No significant differences" <==> !Significant(f.kw.p)
    ensures -0.00005 <= row.h - f.kw.h <= 0.00005
    ensures -0.0000005 <= row.p - f.kw.p <= 0.0000005
  {
    KwRow(f.name, Round4(f.kw.h), Round6(f.kw.p), Interpretation(f.kw.p, ""))
  }

  /**
   * `kruskal_test_for_factors`: assigns each factor's quintile column
   * (replacing one that exists) and appends the factor's table row.
   */
  method KruskalTestForFactors(cols: QuintileColumns, factors: seq<Factor>) returns (rows: seq<KwRow>)
    modifies cols
    ensures cols.columns == AssignAll(old(cols.columns), factors)
    ensures rows == PerFactor(factors, KwTableRow)
  {
    rows := [];
    for i := 0 to |factors|
      invariant cols.columns == AssignAll(old(cols.columns), factors[..i])
      invariant |rows| == i && forall k :: 0 <= k < i ==> rows[k] == KwTableRow(factors[k])
    {
      var f := factors[i];
      cols.Assign(QuintileColumn(f.name), f.labels);
      assert factors[..i + 1][..i] == factors[..i];
      rows := rows + [KwTableRow(f)];
    }
    assert factors[..|factors|] == factors;
  }

  /** A report page: the Kruskal-Wallis table, a factor's quintile summary, or a factor's pair table. */
  datatype Page = KruskalPage(rows: seq<KwRow>) | SummaryPage(factor: string, summary: seq<SummaryRow>) | PosthocPage(factor: string, table: seq<PairRow>)

  /** As written: the p-value in the table, rounded to 6 places, is compared with 0.05. */
  predicate GateAsWritten(f: Factor)
  {
    Significant(KwTableRow(f).p)
  }

  /** As the table's Interpretation column decides: the raw p-value is compared with 0.05. */
  predicate GateIntended(f: Factor)
  {
    Significant(f.kw.p)
  }

  predicate Gate(f: Factor, asWritten: bool)
  {
    if asWritten then GateAsWritten(f) else GateIntended(f)
  }

  /** The frame and the factors fit together, and every quintile column of a factor is present. */
  predicate Fits(latency: seq<Option<real>>, columns: map<string, seq<Option<nat>>>, factors: seq<Factor>)
  {
    FitFrame(factors, |latency|) && FixedDunn(factors) && ColumnsFitFrame(columns, |latency|)
    && forall i :: 0 <= i < |factors| ==> QuintileColumn(factors[i].name) in columns
  }

  /** The pair table of one factor, over the labels stored in its quintile column. */
  function FactorTable(f: Factor, latency: seq<Option<real>>, columns: map<string, seq<Option<nat>>>): Result<seq<PairRow>, TableError>
    requires |f.values| == |latency| && FixedQuintiles(f.dunn)
    requires QuintileColumn(f.name) in columns && |columns[QuintileColumn(f.name)]| == |latency|
  {
    PairTableSpec(ColumnObservations(f, latency, columns), f.dunn, ComputeAllShowSignificant)
  }

  /** The pages of one factor: none when it fails the gate, otherwise its summary and its pair table. */
  function FactorPages(f: Factor, latency: seq<Option<real>>, columns: map<string, seq<Option<nat>>>, pass: bool): Result<seq<Page>, TableError>
    requires |f.values| == |latency| && FixedQuintiles(f.dunn)
    requires QuintileColumn(f.name) in columns && |columns[QuintileColumn(f.name)]| == |latency|
  {
    if !pass then Ok([])
    else
      var obs := ColumnObservations(f, latency, columns);
      match FactorTable(f, latency, columns)
      case Err(e) => Err(e)
      case Ok(table) => Ok([SummaryPage(f.name, SummaryUpTo(obs, QUINTILE_COUNT)), PosthocPage(f.name, table)])
  }

  /** What each factor adds to the report, in order. */
  function FactorOutputs(latency: seq<Option<real>>, columns: map<string, seq<Option<nat>>>, factors: seq<Factor>, asWritten: bool): (outs: seq<Result<seq<Page>, TableError>>)
    requires Fits(latency, columns, factors)
    ensures |outs| == |factors|
    ensures forall i :: 0 <= i < |factors| ==> outs[i] == FactorPages(factors[i], latency, columns, Gate(factors[i], asWritten))
  {
    seq(|factors|, i requires 0 <= i < |factors| => FactorPages(factors[i], latency, columns, Gate(factors[i], asWritten)))
  }

  /** `build_report`: the Kruskal-Wallis page, then the pages of every factor, over the quintile columns the tests assigned. */
  function Phase1Report(latency: seq<Option<real>>, columns: map<string, seq<Option<nat>>>, factors: seq<Factor>, asWritten: bool): Result<seq<Page>, TableError>
    requires FitFrame(factors, |latency|) && FixedDunn(factors) && ColumnsFitFrame(columns, |latency|)
  {
    var labelled := AssignAll(columns, factors);
    AssignAllFits(columns, factors, |latency|);
    match Concat(FactorOutputs(latency, labelled, factors, asWritten), |factors|)
    case Err(e) => Err(e)
    case Ok(pages) => Ok([KruskalPage(PerFactor(factors, KwTableRow))] + pages)
  }

  /**
   * The body of the loop of `build_report` for one factor: nothing when
   * it does not pass; otherwise `summary_stats_for_factor` and
   * `produce_posthoc_cliffs_table`, each reusing the quintile column
   * already in the frame.
   */
  method FactorPagesOf(cols: QuintileColumns, latency: seq<Option<real>>, f: Factor, pass: bool) returns (pages: Result<seq<Page>, TableError>)
    requires |f.values| == |latency| && FixedQuintiles(f.dunn)
    requires QuintileColumn(f.name) in cols.columns && |cols.columns[QuintileColumn(f.name)]| == |latency|
    modifies cols
    ensures cols.columns == old(cols.columns)
    ensures pages == FactorPages(f, latency, old(cols.columns), pass)
  {
    if !pass {
      return Ok([]);
    }
    var column := QuintileColumn(f.name);
    cols.EnsureAssigned(column, f.labels);
    var obs := Observations(f.values, latency, cols.columns[column]);
    var summary := Summarize(obs);
    cols.EnsureAssigned(column, f.labels);
    var table := BuildPairTable(obs, f.dunn, ComputeAllShowSignificant);
    if table.Err? {
      return Err(table.error);
    }
    return Ok([SummaryPage(f.name, summary), PosthocPage(f.name, table.value)]);
  }

  /** The report once the factor pages are known. */
  lemma Phase1ReportOf(latency: seq<Option<real>>, columns: map<string, seq<Option<nat>>>, factors: seq<Factor>, asWritten: bool)
    requires FitFrame(factors, |latency|) && FixedDunn(factors) && ColumnsFitFrame(columns, |latency|)
    ensures Fits(latency, AssignAll(columns, factors), factors)
    ensures var pages := Concat(FactorOutputs(latency, AssignAll(columns, factors), factors, asWritten), |factors|);
      Phase1Report(latency, columns, factors, asWritten)
      == if pages.Err? then Err(pages.error) else Ok([KruskalPage(PerFactor(factors, KwTableRow))] + pages.value)
  {
    AssignAllFits(columns, factors, |latency|);
  }

  /**
   * `build_report` with the gate following the Interpretation column:
   * the tests assign every quintile column, then each factor whose table
   * row says "Significant differences" gets a summary page and a
   * pair-table page. A pair table that fails stops the report.
   */
  method BuildReport(cols: QuintileColumns, latency: seq<Option<real>>, factors: seq<Factor>) returns (report: Result<seq<Page>, TableError>)
    requires FitFrame(factors, |latency|) && FixedDunn(factors) && ColumnsFitFrame(cols.columns, |latency|)
    modifies cols
    ensures cols.columns == AssignAll(old(cols.columns), factors)
    ensures report == Phase1Report(latency, old(cols.columns), factors, false)
  {
    var kwRows := KruskalTestForFactors(cols, factors);
    ghost var labelled := cols.columns;
    Phase1ReportOf(latency, old(cols.columns), factors, false);
    ghost var outs := FactorOutputs(latency, labelled, factors, false);
    var pages: seq<Page> := [];
    for i := 0 to |factors|
      invariant cols.columns == labelled
      invariant Concat(outs, i) == Ok(pages)
    {
      var f := factors[i];
      var pass := kwRows[i].interpretation == "Significant differences";
      var more := FactorPagesOf(cols, latency, f, pass);
      assert more == outs[i];
      ConcatStep(outs, i, pages);
      if more.Err? {
        return Err(more.error);
      }
      pages := pages + more.value;
    }
    return Ok([KruskalPage(kwRows)] + pages);
  }

  /**
   * The gate as written passes exactly the p-values below 0.0499995;
   * the intended gate passes exactly the ones the table calls significant.
   */
  lemma GateThresholds(f: Factor)
    ensures GateAsWritten(f) <==> f.kw.p < 0.0499995
    ensures GateIntended(f) <==> KwTableRow(f).interpretation == "Significant differences"
  {
    RoundedGateThreshold(f.kw.p);
  }

  /**
   * As written, a factor with p = 0.04999975 is listed as showing
   * "Significant differences" with p shown as 0.05, yet gets no pages.
   */
  lemma RoundedGateHidesSignificantFactor(f: Factor, latency: seq<Option<real>>, columns: map<string, seq<Option<nat>>>)
    requires |f.values| == |latency| && FixedQuintiles(f.dunn)
    requires QuintileColumn(f.name) in columns && |columns[QuintileColumn(f.name)]| == |latency|
    requires f.kw.p == 0.04999975
    ensures KwTableRow(f).interpretation == "Significant differences" && KwTableRow(f).p == 0.05
    ensures FactorPages(f, latency, columns, GateAsWritten(f)) == Ok([])
    ensures FactorPages(f, latency, columns, GateIntended(f)) != Ok([])
  {
    RoundedGateDisagrees();
    assert RoundedUnits(0.04999975, 1000000) == 50000;
  }

  /** The number of factors among the first n that pass the gate. */
  function Passing(factors: seq<Factor>, n: nat, asWritten: bool): (c: nat)
    requires n <= |factors|
    ensures c <= n
  {
    if n == 0 then 0 else Passing(factors, n - 1, asWritten) + (if Gate(factors[n - 1], asWritten) then 1 else 0)
  }

  /** A factor's pages: none when it does not pass, a summary and its pair table when it passes and the table does not fail. */
  lemma FactorPagesOutcome(f: Factor, latency: seq<Option<real>>, columns: map<string, seq<Option<nat>>>, pass: bool)
    requires |f.values| == |latency| && FixedQuintiles(f.dunn)
    requires QuintileColumn(f.name) in columns && |columns[QuintileColumn(f.name)]| == |latency|
    ensures var r := FactorPages(f, latency, columns, pass);
      (r.Ok? <==> !pass || FactorTable(f, latency, columns).Ok?)
      && (r.Ok? ==> |r.value| == if pass then 2 else 0)
      && (r.Ok? && pass ==> r.value[0].SummaryPage? && r.value[1] == PosthocPage(f.name, FactorTable(f, latency, columns).value))
  {
  }

  /** Two pages per passing factor add up to twice the number of passing factors. */
  lemma {:induction false} PassingSum(factors: seq<Factor>, n: nat, asWritten: bool, sizes: seq<nat>)
    requires n <= |factors| && |sizes| == |factors|
    requires forall i :: 0 <= i < |factors| ==> sizes[i] == if Gate(factors[i], asWritten) then 2 else 0
    ensures Sum(sizes, n) == 2 * Passing(factors, n, asWritten)
  {
    if n > 0 {
      PassingSum(factors, n - 1, asWritten, sizes);
    }
  }

  /**
   * The factor pages fail exactly when some factor that passes the gate
   * has a failing pair table; otherwise there are two pages per passing
   * factor, a summary followed by its pair table, and none for the others.
   */
  lemma PagesOutcome(latency: seq<Option<real>>, columns: map<string, seq<Option<nat>>>, factors: seq<Factor>, asWritten: bool)
    requires Fits(latency, columns, factors)
    ensures var r := Concat(FactorOutputs(latency, columns, factors, asWritten), |factors|);
      (r.Ok? <==> forall i :: 0 <= i < |factors| && Gate(factors[i], asWritten) ==> FactorTable(factors[i], latency, columns).Ok?)
      && (r.Ok? ==> |r.value| == 2 * Passing(factors, |factors|, asWritten))
  {
    var outs := FactorOutputs(latency, columns, factors, asWritten);
    var sizes := seq(|factors|, i requires 0 <= i < |factors| => if Gate(factors[i], asWritten) then 2 else 0);
    forall i | 0 <= i < |factors|
      ensures (outs[i].Ok? <==> !Gate(factors[i], asWritten) || FactorTable(factors[i], latency, columns).Ok?)
              && (outs[i].Ok? ==> |outs[i].value| == sizes[i])
    {
      FactorPagesOutcome(factors[i], latency, columns, Gate(factors[i], asWritten));
    }
    ConcatOutcome(outs, |factors|);
    if Concat(outs, |factors|).Ok? {
      ConcatLength(outs, |factors|, sizes);
      PassingSum(factors, |factors|, asWritten, sizes);
    }
  }

  /**
   * A factor's pair table that does not fail has the ten rows Q1 vs Q2
   * .. Q4 vs Q5 in that order, each saying "Yes" exactly when its p-value
   * is below 0.05 and showing delta exactly then, within [-1, 1].
   */
  lemma FactorTableRows(f: Factor, latency: seq<Option<real>>, columns: map<string, seq<Option<nat>>>)
    requires |f.values| == |latency| && FixedQuintiles(f.dunn)
    requires QuintileColumn(f.name) in columns && |columns[QuintileColumn(f.name)]| == |latency|
    requires FactorTable(f, latency, columns).Ok?
    ensures var rows := FactorTable(f, latency, columns).value;
      Comparisons(rows) == ["Q1 vs Q2", "Q1 vs Q3", "Q1 vs Q4", "Q1 vs Q5", "Q2 vs Q3",
                            "Q2 vs Q4", "Q2 vs Q5", "Q3 vs Q4", "Q3 vs Q5", "Q4 vs Q5"]
      && forall k :: 0 <= k < |rows| ==>
           (rows[k].significant <==> Significant(rows[k].p))
           && (rows[k].delta.Some? <==> Significant(rows[k].p))
           && (rows[k].delta.Some? ==> -1.0 <= rows[k].delta.value <= 1.0)
  {
    var obs := ColumnObservations(f, latency, columns);
    FixedQuintileComparisons(obs, f.dunn, ComputeAllShowSignificant);
    PairTableRowsAgree(obs, f.dunn, ComputeAllShowSignificant);
  }
}
