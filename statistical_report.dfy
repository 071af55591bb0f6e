/**
 * `perform_statistical_analysis` of the two Statistical_analysis scripts
 * (LowGasUsed and HighGasUsed): a Kruskal-Wallis table over the three
 * features, an interpretation paragraph, and one section per feature
 * whose Dunn pair table, with Cliff's delta for the significant pairs,
 * appears only when the feature's KW p-value is below 0.05.
 *
 * The LowGasUsed script writes one interpretation line per feature from
 * its p-value; the HighGasUsed script prints a fixed paragraph whatever
 * the results. The analysis takes the script as a parameter and writes
 * that script's interpretation.
 */
module StatisticalReport {
  import opened Wrappers
  import opened Stats
  import opened Quintiles
  import opened PairTable
  import opened Factors
  import opened Steps

  /** A row of the Kruskal-Wallis table: the feature, H, p and the interpretation. */
  datatype KwRow = KwRow(feature: string, h: real, p: real, interpretation: string)

  /** The table row of one feature: H and p as the test reports them, and the interpretation chosen by p. */
  function KwTableRow(f: Factor): (row: KwRow)
    ensures row.feature == f.name && row.h == f.kw.h && row.p == f.kw.p
    ensures row.interpretation == "Significant differences among quintiles" <==> Significant(f.kw.p)
  {
    KwRow(f.name, f.kw.h, f.kw.p, Interpretation(f.kw.p, " among quintiles"))
  }

  /** What an interpretation line claims about one feature. */
  datatype Line = ShowsDifferences(feature: string) | NoDifferences(feature: string)

  /** The LowGasUsed interpretation line of one feature. */
  function InterpretationLine(feature: string, p: real): (line: Line)
    ensures line.feature == feature
    ensures line.ShowsDifferences? <==> Significant(p)
  {
    if p < ALPHA then ShowsDifferences(feature) else NoDifferences(feature)
  }

  /** The interpretation lines, one per feature in order. */
  function InterpretationLines(factors: seq<Factor>): (lines: seq<Line>)
    ensures |lines| == |factors|
    ensures forall i :: 0 <= i < |factors| ==> lines[i] == InterpretationLine(factors[i].name, factors[i].kw.p)
  {
    seq(|factors|, i requires 0 <= i < |factors| => InterpretationLine(factors[i].name, factors[i].kw.p))
  }

  /** The interpretation loop of the LowGasUsed script. */
  method InterpretationParagraph(factors: seq<Factor>) returns (lines: seq<Line>)
    ensures lines == InterpretationLines(factors)
  {
    lines := [];
    for i := 0 to |factors|
      invariant |lines| == i
      invariant forall k :: 0 <= k < i ==> lines[k] == InterpretationLine(factors[k].name, factors[k].kw.p)
    {
      var f := factors[i];
      if f.kw.p < ALPHA {
        lines := lines + [ShowsDifferences(f.name)];
      } else {
        lines := lines + [NoDifferences(f.name)];
      }
    }
  }

  /**
   * Each interpretation line claims differences for its own feature
   * exactly when the feature's row of the KW table says "Significant
   * differences among quintiles".
   */
  lemma InterpretationAgreesWithTable(factors: seq<Factor>, i: nat)
    requires i < |factors|
    ensures InterpretationLines(factors)[i] == ShowsDifferences(PerFactor(factors, KwTableRow)[i].feature)
            <==> PerFactor(factors, KwTableRow)[i].interpretation == "Significant differences among quintiles"
  {
  }

  /**
   * The claims of the paragraph the HighGasUsed script prints whatever
   * the results: Gas Price and Transaction Count show differences, Block
   * Size does not.
   */
  const HIGHGAS_CLAIMS: seq<Line> := [ShowsDifferences("Gas Price"), ShowsDifferences("Transaction Count"), NoDifferences("Block Size")]

  /** The HighGasUsed interpretation, as written: it does not look at the features. */
  function HighGasInterpretation(factors: seq<Factor>): (lines: seq<Line>)
    ensures |lines| == 3 && lines[2] == NoDifferences("Block Size")
  {
    HIGHGAS_CLAIMS
  }

  /**
   * As written, the HighGasUsed paragraph can contradict its own table:
   * with a Block Size p-value of 0.01 the table says "Significant
   * differences among quintiles" while the paragraph claims no
   * differences for Block Size; the per-feature lines claim differences.
   */
  lemma HighGasInterpretationIgnoresResults(factors: seq<Factor>)
    requires |factors| == 3 && factors[1].kw.p == 0.01
    ensures PerFactor(factors, KwTableRow)[1].interpretation == "Significant differences among quintiles"
    ensures HighGasInterpretation(factors)[2] == NoDifferences("Block Size")
    ensures InterpretationLines(factors)[1] == ShowsDifferences(factors[1].name)
  {
  }

  /** One feature's section: its KW result and, when p < 0.05, its pair table. */
  datatype Section = Section(feature: string, kw: KruskalResult, posthoc: Option<seq<PairRow>>)

  /** The section of one feature; the pair table computes and shows delta only for significant pairs. */
  function SectionSpec(f: Factor, latency: seq<Option<real>>): Result<Section, TableError>
    requires |f.values| == |latency| && |f.labels| == |latency| && f.dunn.WellFormed()
  {
    if !Significant(f.kw.p) then Ok(Section(f.name, f.kw, None))
    else
      match PairTableSpec(Observations(f.values, latency, f.labels), f.dunn, SignificantOnly)
      case Err(e) => Err(e)
      case Ok(rows) => Ok(Section(f.name, f.kw, Some(rows)))
  }

  /**
   * `posthoc_dunn` indexes its matrix by the groups that occur in the
   * data, so every group of the matrix has a record with a latency; then
   * no section fails, since every delta has two non-empty samples.
   */
  lemma SectionOfObservedGroups(f: Factor, latency: seq<Option<real>>)
    requires |f.values| == |latency| && |f.labels| == |latency| && f.dunn.WellFormed()
    requires forall a :: 0 <= a < |f.dunn.groups| ==>
               exists i :: 0 <= i < |latency| && f.labels[i] == Some(f.dunn.groups[a]) && latency[i].Some?
    ensures SectionSpec(f, latency).Ok?
  {
    if Significant(f.kw.p) {
      var obs := Observations(f.values, latency, f.labels);
      var m := f.dunn;
      forall a | 0 <= a < |m.groups|
        ensures |Latencies(obs, m.groups[a])| > 0
      {
        var i :| 0 <= i < |latency| && f.labels[i] == Some(m.groups[a]) && latency[i].Some?;
        LatenciesMembership(obs, m.groups[a], latency[i].value);
      }
      PairTableOutcome(obs, m, SignificantOnly);
    }
  }

  /** The whole analysis: the KW table, the interpretation lines and the sections. */
  datatype Report = Report(kwTable: seq<KwRow>, interpretation: seq<Line>, sections: seq<Section>)

  predicate Fits(latency: seq<Option<real>>, factors: seq<Factor>)
  {
    FitFrame(factors, |latency|) && forall i :: 0 <= i < |factors| ==> factors[i].dunn.WellFormed()
  }

  /** What each feature adds to the report: its section, or the error of its pair table. */
  function SectionOutputs(latency: seq<Option<real>>, factors: seq<Factor>): (outs: seq<Result<seq<Section>, TableError>>)
    requires Fits(latency, factors)
    ensures |outs| == |factors|
    ensures forall i :: 0 <= i < |factors| ==>
              outs[i] == match SectionSpec(factors[i], latency) case Err(e) => Err(e) case Ok(s) => Ok([s])
  {
    seq(|factors|, i requires 0 <= i < |factors| =>
      match SectionSpec(factors[i], latency) case Err(e) => Err(e) case Ok(s) => Ok([s]))
  }

  /** The two scripts that share `perform_statistical_analysis`; they differ only in the interpretation. */
  datatype Script = LowGasUsed | HighGasUsed

  /** The interpretation a script writes: per-feature lines, or the HighGasUsed fixed paragraph. */
  function ScriptInterpretation(script: Script, factors: seq<Factor>): seq<Line>
  {
    match script
    case LowGasUsed => InterpretationLines(factors)
    case HighGasUsed => HighGasInterpretation(factors)
  }

  /** The whole analysis of one script; the first feature whose pair table fails stops it. */
  function ReportSpec(script: Script, latency: seq<Option<real>>, factors: seq<Factor>): Result<Report, TableError>
    requires Fits(latency, factors)
  {
    match Concat(SectionOutputs(latency, factors), |factors|)
    case Err(e) => Err(e)
    case Ok(sections) =>
      Ok(Report(PerFactor(factors, KwTableRow), ScriptInterpretation(script, factors), sections))
  }

  /**
   * The analysis fails exactly when some feature's section fails. When it
   * succeeds, the KW table has a row per feature; the LowGasUsed lines
   * claim differences for a feature exactly when its table row reports
   * them, while the HighGasUsed paragraph is the fixed one, whatever the
   * p-values.
   */
  lemma ReportOutcome(script: Script, latency: seq<Option<real>>, factors: seq<Factor>)
    requires Fits(latency, factors)
    ensures var r := ReportSpec(script, latency, factors);
      r.Ok? <==> forall i :: 0 <= i < |factors| ==> SectionSpec(factors[i], latency).Ok?
    ensures var r := ReportSpec(script, latency, factors);
      r.Ok? ==> |r.value.kwTable| == |factors|
                && (script == HighGasUsed ==> r.value.interpretation == HIGHGAS_CLAIMS)
                && (script == LowGasUsed ==>
                      |r.value.interpretation| == |factors|
                      && forall i :: 0 <= i < |factors| ==>
                           r.value.interpretation[i].feature == r.value.kwTable[i].feature
                           && (r.value.interpretation[i].ShowsDifferences?
                               <==> r.value.kwTable[i].interpretation == "Significant differences among quintiles"))
  {
    var outs := SectionOutputs(latency, factors);
    ConcatOutcome(outs, |factors|);
    assert forall i :: 0 <= i < |factors| ==> (outs[i].Ok? <==> SectionSpec(factors[i], latency).Ok?);
  }

  /** One feature's section of `perform_statistical_analysis`: the pair loop runs only past the KW gate. */
  method BuildSection(f: Factor, latency: seq<Option<real>>) returns (section: Result<Section, TableError>)
    requires |f.values| == |latency| && |f.labels| == |latency| && f.dunn.WellFormed()
    ensures section == SectionSpec(f, latency)
  {
    if !(f.kw.p < ALPHA) {
      return Ok(Section(f.name, f.kw, None));
    }
    var table := BuildPairTable(Observations(f.values, latency, f.labels), f.dunn, SignificantOnly);
    if table.Err? {
      return Err(table.error);
    }
    return Ok(Section(f.name, f.kw, Some(table.value)));
  }

  /** The loop that builds the Kruskal-Wallis table, one row per feature. */
  method KruskalTable(factors: seq<Factor>) returns (kwTable: seq<KwRow>)
    ensures kwTable == PerFactor(factors, KwTableRow)
  {
    kwTable := [];
    for i := 0 to |factors|
      invariant |kwTable| == i && forall k :: 0 <= k < i ==> kwTable[k] == KwTableRow(factors[k])
    {
      kwTable := kwTable + [KwTableRow(factors[i])];
    }
  }

  /** `perform_statistical_analysis`: the KW table, the interpretation, then the section of each feature. */
  method PerformStatisticalAnalysis(script: Script, latency: seq<Option<real>>, factors: seq<Factor>) returns (report: Result<Report, TableError>)
    requires Fits(latency, factors)
    ensures report == ReportSpec(script, latency, factors)
  {
    var kwTable := KruskalTable(factors);
    var interpretation: seq<Line>;
    if script == LowGasUsed {
      interpretation := InterpretationParagraph(factors);
    } else {
      interpretation := HIGHGAS_CLAIMS;
    }
    ghost var outs := SectionOutputs(latency, factors);
    var sections: seq<Section> := [];
    for i := 0 to |factors|
      invariant Concat(outs, i) == Ok(sections)
    {
      var s := BuildSection(factors[i], latency);
      assert outs[i] == if s.Err? then Err(s.error) else Ok([s.value]);
      ConcatStep(outs, i, sections);
      if s.Err? {
        return Err(s.error);
      }
      sections := sections + [s.value];
    }
    return Ok(Report(kwTable, interpretation, sections));
  }

  /**
   * A feature's section has a pair table exactly when its KW p-value is
   * below 0.05 (p = 0.05 gets none); the table then has a row per pair
   * i < j of the Dunn groups, labelled by their quintiles, each showing
   * delta, within [-1, 1], exactly when its p-value is below 0.05.
   */
  lemma SectionGate(f: Factor, latency: seq<Option<real>>)
    requires |f.values| == |latency| && |f.labels| == |latency| && f.dunn.WellFormed()
    ensures var s := SectionSpec(f, latency);
      (s.Ok? ==> s.value.feature == f.name && (s.value.posthoc.Some? <==> Significant(f.kw.p)))
      && (!Significant(f.kw.p) ==> s == Ok(Section(f.name, f.kw, None)))
    ensures var s := SectionSpec(f, latency);
      var k := |f.dunn.groups|;
      s.Ok? && s.value.posthoc.Some? ==>
        2 * |s.value.posthoc.value| == k * (k - 1)
        && (forall a: nat, b: nat :: a < b < k ==>
              PairIndex(a, b, k) < |s.value.posthoc.value|
              && s.value.posthoc.value[PairIndex(a, b, k)].comparison == Comparison(f.dunn.groups[a], f.dunn.groups[b]))
        && forall t :: 0 <= t < |s.value.posthoc.value| ==>
             var row := s.value.posthoc.value[t];
             (row.delta.Some? <==> Significant(row.p)) && (row.delta.Some? ==> -1.0 <= row.delta.value <= 1.0)
  {
    var s := SectionSpec(f, latency);
    if s.Ok? && s.value.posthoc.Some? {
      var obs := Observations(f.values, latency, f.labels);
      PairTableComparisons(obs, f.dunn, SignificantOnly);
      PairTableRowsAgree(obs, f.dunn, SignificantOnly);
    }
  }
}
