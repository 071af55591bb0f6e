/**
 * The report of the Phase 2 script: `analyze_factor` summarises each
 * quintile, takes the Kruskal-Wallis result over the five quintile
 * groups and, when it is significant, builds the pair table with Cliff's
 * delta for every pair; `build_report_one_factor` turns each factor's
 * analysis into a summary page, a post-hoc page when there is one, and a
 * boxplot page.
 */
module Phase2Report {
  import opened Wrappers
  import opened Stats
  import opened Quintiles
  import opened PairTable
  import opened Factors
  import opened Steps

  /** What `analyze_factor` returns: the summary rows, the KW result (None when skipped) and the pair table (None when not built). */
  datatype Analysis = Analysis(summary: seq<SummaryRow>, kw: Option<KruskalResult>, posthoc: Option<seq<PairRow>>)

  /** The latency groups of `groupby(quintile_col, observed=False)`: one per category Q1..Q5. */
  function QuintileGroups(obs: seq<Observation>): (groups: seq<seq<real>>)
    ensures |groups| == QUINTILE_COUNT
    ensures forall q :: 0 <= q < QUINTILE_COUNT ==> groups[q] == Latencies(obs, q)
  {
    seq(QUINTILE_COUNT, q requires 0 <= q < QUINTILE_COUNT => Latencies(obs, q))
  }

  /**
   * `analyze_factor` over the factor's observations: the summary skips
   * empty quintiles; with fewer than 5 groups there is no KW result and
   * no table; otherwise the table is built exactly when p < 0.05.
   */
  function AnalyzeFactorSpec(obs: seq<Observation>, kw: KruskalResult, dunn: DunnMatrix): Result<Analysis, TableError>
    requires FixedQuintiles(dunn)
  {
    var summary := SummaryUpTo(obs, QUINTILE_COUNT);
    if |QuintileGroups(obs)| < QUINTILE_COUNT then Ok(Analysis(summary, None, None))
    else if !Significant(kw.p) then Ok(Analysis(summary, Some(kw), None))
    else
      match PairTableSpec(obs, dunn, ComputeAllShowAll)
      case Err(e) => Err(e)
      case Ok(rows) => Ok(Analysis(summary, Some(kw), Some(rows)))
  }

  /**
   * `analyze_factor(df, factor_col, ...)`: assigns the factor's quintile
   * column, then works on the labels now in the frame.
   */
  method AnalyzeFactor(cols: QuintileColumns, latency: seq<Option<real>>, f: Factor) returns (analysis: Result<Analysis, TableError>)
    requires |f.values| == |latency| && |f.labels| == |latency| && FixedQuintiles(f.dunn)
    modifies cols
    ensures cols.columns == old(cols.columns)[QuintileColumn(f.name) := f.labels]
    ensures analysis == AnalyzeFactorSpec(Observations(f.values, latency, f.labels), f.kw, f.dunn)
  {
    var column := QuintileColumn(f.name);
    cols.Assign(column, f.labels);
    var obs := Observations(f.values, latency, cols.columns[column]);
    var summary := Summarize(obs);
    var groups := CollectGroups(obs);
    assert groups == QuintileGroups(obs);
    if |groups| < QUINTILE_COUNT {
      return Ok(Analysis(summary, None, None));
    }
    if !Significant(f.kw.p) {
      return Ok(Analysis(summary, Some(f.kw), None));
    }
    var table := BuildPairTable(obs, f.dunn, ComputeAllShowAll);
    if table.Err? {
      return Err(table.error);
    }
    return Ok(Analysis(summary, Some(f.kw), Some(table.value)));
  }

  /** The guard on fewer than 5 groups never fires: `observed=False` yields one group per category. */
  lemma GroupGuardNeverFires(obs: seq<Observation>)
    ensures !(|QuintileGroups(obs)| < QUINTILE_COUNT)
  {
  }

  /**
   * The analysis always carries the KW result; it fails exactly when the
   * result is significant and some quintile has no latency (delta over an
   * empty group); otherwise it has a pair table exactly when p < 0.05,
   * with the ten rows Q1 vs Q2 .. Q4 vs Q5, each with a delta and a "Yes"
   * exactly when its p-value is below 0.05.
   */
  lemma AnalysisOutcome(obs: seq<Observation>, kw: KruskalResult, dunn: DunnMatrix)
    requires FixedQuintiles(dunn)
    ensures var r := AnalyzeFactorSpec(obs, kw, dunn);
      (r.Err? <==> Significant(kw.p) && exists q :: 0 <= q < QUINTILE_COUNT && |Latencies(obs, q)| == 0)
      && (r.Ok? ==>
            r.value.summary == SummaryUpTo(obs, QUINTILE_COUNT)
            && r.value.kw == Some(kw)
            && (r.value.posthoc.Some? <==> Significant(kw.p)))
    ensures var r := AnalyzeFactorSpec(obs, kw, dunn);
      r.Ok? && r.value.posthoc.Some? ==>
        Comparisons(r.value.posthoc.value)
          == ["Q1 vs Q2", "Q1 vs Q3", "Q1 vs Q4", "Q1 vs Q5", "Q2 vs Q3",
              "Q2 vs Q4", "Q2 vs Q5", "Q3 vs Q4", "Q3 vs Q5", "Q4 vs Q5"]
        && forall k :: 0 <= k < |r.value.posthoc.value| ==>
             var row := r.value.posthoc.value[k];
             row.delta.Some? && -1.0 <= row.delta.value <= 1.0
             && (row.significant <==> Significant(row.p))
  {
    if Significant(kw.p) {
      FixedQuintilesEmptyGroup(obs, dunn, ComputeAllShowAll);
      if PairTableSpec(obs, dunn, ComputeAllShowAll).Ok? {
        FixedQuintileComparisons(obs, dunn, ComputeAllShowAll);
        PairTableRowsAgree(obs, dunn, ComputeAllShowAll);
      }
    }
  }

  /** The Kruskal-Wallis row of the summary page: the statistic and p-value, or "N/A". */
  datatype KwCell = KwShown(h: real, p: real) | NotAvailable

  /** A page of the report: the summary with the KW row, the post-hoc table, or the boxplot. */
  datatype Page = SummaryPage(factor: string, summary: seq<SummaryRow>, kw: KwCell) | PosthocPage(factor: string, table: seq<PairRow>) | BoxplotPage(factor: string)

  /**
   * The pages of one factor: the summary page, the post-hoc page only
   * when the KW p-value exists and is below 0.05 and a table exists, and
   * the boxplot page.
   */
  function AnalysisPages(name: string, a: Analysis): seq<Page>
  {
    [SummaryPage(name, a.summary, if a.kw.Some? then KwShown(a.kw.value.h, a.kw.value.p) else NotAvailable)]
    + (if a.kw.Some? && Significant(a.kw.value.p) && a.posthoc.Some? then [PosthocPage(name, a.posthoc.value)] else [])
    + [BoxplotPage(name)]
  }

  predicate Fits(latency: seq<Option<real>>, factors: seq<Factor>)
  {
    FitFrame(factors, |latency|) && FixedDunn(factors)
  }

  /** The analysis of factor i. */
  function FactorAnalysis(latency: seq<Option<real>>, factors: seq<Factor>, i: nat): Result<Analysis, TableError>
    requires Fits(latency, factors) && i < |factors|
  {
    AnalyzeFactorSpec(Observations(factors[i].values, latency, factors[i].labels), factors[i].kw, factors[i].dunn)
  }

  /** The pages of one factor, or the error of its analysis. */
  function FactorPages(name: string, a: Result<Analysis, TableError>): Result<seq<Page>, TableError>
  {
    match a
    case Err(e) => Err(e)
    case Ok(analysis) => Ok(AnalysisPages(name, analysis))
  }

  /** What each factor adds to the report, in order. */
  function FactorOutputs(latency: seq<Option<real>>, factors: seq<Factor>): (outs: seq<Result<seq<Page>, TableError>>)
    requires Fits(latency, factors)
    ensures |outs| == |factors|
    ensures forall i :: 0 <= i < |factors| ==> outs[i] == FactorPages(factors[i].name, FactorAnalysis(latency, factors, i))
  {
    seq(|factors|, i requires 0 <= i < |factors| => FactorPages(factors[i].name, FactorAnalysis(latency, factors, i)))
  }

  /** The report `build_report_one_factor` writes: the pages of every factor; the first error stops it. */
  function Phase2Report(latency: seq<Option<real>>, factors: seq<Factor>): Result<seq<Page>, TableError>
    requires Fits(latency, factors)
  {
    Concat(FactorOutputs(latency, factors), |factors|)
  }

  /** The quintile columns after `analyze_factor` has run for factors 0..n-1. */
  function ColumnsUpTo(columns: map<string, seq<Option<nat>>>, factors: seq<Factor>, n: nat): map<string, seq<Option<nat>>>
    requires n <= |factors|
  {
    AssignAll(columns, factors[..n])
  }

  /**
   * `build_report_one_factor`: for each factor in turn, its analysis,
   * then its summary page, its post-hoc page when the gate holds, and its
   * boxplot page (whose plot reuses the quintile column).
   */
  method BuildReportOneFactor(cols: QuintileColumns, latency: seq<Option<real>>, factors: seq<Factor>) returns (report: Result<seq<Page>, TableError>)
    requires Fits(latency, factors)
    modifies cols
    ensures report.Ok? ==> cols.columns == AssignAll(old(cols.columns), factors)
    ensures report == Phase2Report(latency, factors)
  {
    ghost var outs := FactorOutputs(latency, factors);
    var pages: seq<Page> := [];
    for i := 0 to |factors|
      invariant cols.columns == ColumnsUpTo(old(cols.columns), factors, i)
      invariant Concat(outs, i) == Ok(pages)
    {
      var f := factors[i];
      var a := AnalyzeFactor(cols, latency, f);
      assert outs[i] == FactorPages(f.name, a);
      ConcatStep(outs, i, pages);
      if a.Err? {
        return Err(a.error);
      }
      cols.EnsureAssigned(QuintileColumn(f.name), f.labels);
      assert factors[..i + 1][..i] == factors[..i];
      pages := pages + AnalysisPages(f.name, a.value);
    }
    assert factors[..|factors|] == factors;
    return Ok(pages);
  }

  /**
   * In a report that does not fail, every factor's summary page shows its
   * KW result (never "N/A"), and its post-hoc page follows exactly when
   * the KW p-value is below 0.05.
   */
  lemma FactorPagesShape(latency: seq<Option<real>>, factors: seq<Factor>, i: nat)
    requires Fits(latency, factors) && i < |factors|
    requires FactorAnalysis(latency, factors, i).Ok?
    ensures var pages := AnalysisPages(factors[i].name, FactorAnalysis(latency, factors, i).value);
      pages[0] == SummaryPage(factors[i].name, FactorAnalysis(latency, factors, i).value.summary,
                              KwShown(factors[i].kw.h, factors[i].kw.p))
      && (|pages| == 3 <==> Significant(factors[i].kw.p))
      && (|pages| == 3 ==> pages[1].PosthocPage?)
      && pages[|pages| - 1] == BoxplotPage(factors[i].name)
  {
    var f := factors[i];
    AnalysisOutcome(Observations(f.values, latency, f.labels), f.kw, f.dunn);
  }
}
