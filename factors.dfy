/**
 * The per-factor inputs the report scripts share: a factor column of the
 * merged frame (Gas Price, Block Size or Transaction Count), the quintile
 * label `pd.qcut` gives each of its rows, and the results the two
 * library tests report for it. The scripts keep the quintile labels as a
 * column of the frame, so a later step reads back what an earlier step
 * assigned.
 */
module Factors {
  import opened Wrappers
  import opened Stats
  import opened Quintiles
  import opened PairTable

  /**
   * `values` is the factor column, `labels` the `qcut` column, `kw` the
   * Kruskal-Wallis result over the five quintile groups and `dunn` the
   * Dunn p-value matrix; the last three come from libraries.
   */
  datatype Factor = Factor(name: string, values: seq<Option<real>>, labels: seq<Option<nat>>, kw: KruskalResult, dunn: DunnMatrix)

  /** A table with one row per factor, in the order the factors are listed. */
  function PerFactor<T>(factors: seq<Factor>, row: Factor -> T): (rows: seq<T>)
    ensures |rows| == |factors|
    ensures forall i :: 0 <= i < |factors| ==> rows[i] == row(factors[i])
  {
    seq(|factors|, i requires 0 <= i < |factors| => row(factors[i]))
  }

  /** Every factor column and quintile column is as long as the frame's n rows. */
  predicate FitFrame(factors: seq<Factor>, n: nat)
  {
    forall i :: 0 <= i < |factors| ==> |factors[i].values| == n && |factors[i].labels| == n
  }

  /** Every Dunn matrix is the 5 x 5 one indexed by Q1..Q5. */
  predicate FixedDunn(factors: seq<Factor>)
  {
    forall i :: 0 <= i < |factors| ==> FixedQuintiles(factors[i].dunn)
  }

  /** Every quintile column already in the frame has its n rows. */
  predicate ColumnsFitFrame(columns: map<string, seq<Option<nat>>>, n: nat)
  {
    forall name :: name in columns ==> |columns[name]| == n
  }

  /** Different factor columns get different quintile columns. */
  lemma QuintileColumnInjective(a: string, b: string)
    requires QuintileColumn(a) == QuintileColumn(b)
    ensures a == b
  {
    assert |a| == |b|;
    assert a == QuintileColumn(a)[..|a|];
  }

  /** The quintile columns after `df[f"{factor}_Q"] = pd.qcut(...)` for each factor in turn. */
  function AssignAll(columns: map<string, seq<Option<nat>>>, factors: seq<Factor>): (r: map<string, seq<Option<nat>>>)
    ensures forall i :: 0 <= i < |factors| ==> QuintileColumn(factors[i].name) in r
    ensures columns.Keys <= r.Keys
  {
    if |factors| == 0 then columns
    else
      var last := factors[|factors| - 1];
      var init := AssignAll(columns, factors[..|factors| - 1]);
      assert forall i :: 0 <= i < |factors| - 1 ==> factors[..|factors| - 1][i] == factors[i];
      init[QuintileColumn(last.name) := last.labels]
  }

  /**
   * The column of a factor holds that factor's labels when no other
   * factor has the same name (with duplicate names the last assignment
   * wins).
   */
  lemma {:induction false} AssignAllLabels(columns: map<string, seq<Option<nat>>>, factors: seq<Factor>, i: nat)
    requires i < |factors|
    requires forall j :: 0 <= j < |factors| && j != i ==> factors[j].name != factors[i].name
    ensures AssignAll(columns, factors)[QuintileColumn(factors[i].name)] == factors[i].labels
  {
    var n := |factors|;
    var init := factors[..n - 1];
    var last := factors[n - 1];
    assert AssignAll(columns, factors) == AssignAll(columns, init)[QuintileColumn(last.name) := last.labels];
    if i < n - 1 {
      assert init[i] == factors[i];
      assert forall j :: 0 <= j < |init| && j != i ==> init[j].name != init[i].name by {
        assert forall j :: 0 <= j < |init| ==> init[j] == factors[j];
      }
      AssignAllLabels(columns, init, i);
      assert QuintileColumn(last.name) != QuintileColumn(factors[i].name) by {
        if QuintileColumn(last.name) == QuintileColumn(factors[i].name) {
          QuintileColumnInjective(last.name, factors[i].name);
        }
      }
    }
  }

  /** Assigning the factors' label columns keeps every column n rows long. */
  lemma {:induction false} AssignAllFits(columns: map<string, seq<Option<nat>>>, factors: seq<Factor>, n: nat)
    requires ColumnsFitFrame(columns, n) && FitFrame(factors, n)
    ensures ColumnsFitFrame(AssignAll(columns, factors), n)
  {
    if |factors| > 0 {
      var init := factors[..|factors| - 1];
      assert FitFrame(init, n) by {
        assert forall i :: 0 <= i < |init| ==> init[i] == factors[i];
      }
      AssignAllFits(columns, init, n);
    }
  }

  /** A factor's analysis sees the labels currently stored in its quintile column. */
  function ColumnObservations(f: Factor, latency: seq<Option<real>>, columns: map<string, seq<Option<nat>>>): (obs: seq<Observation>)
    requires |f.values| == |latency|
    requires QuintileColumn(f.name) in columns && |columns[QuintileColumn(f.name)]| == |latency|
    ensures |obs| == |latency|
    ensures forall k :: 0 <= k < |obs| ==>
              obs[k].factor == f.values[k] && obs[k].latency == latency[k]
              && obs[k].quintile == columns[QuintileColumn(f.name)][k]
  {
    Observations(f.values, latency, columns[QuintileColumn(f.name)])
  }
}
