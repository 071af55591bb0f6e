/**
 * Records grouped by their quintile label. `pd.qcut` decides each
 * record's label; that call is outside the model, so the label (0..4 for
 * Q1..Q5, or None where qcut left the record unlabelled) is an input.
 */
module Quintiles {
  import opened Wrappers

  const QUINTILE_COUNT: nat := 5

  /** The category labels every script passes to `pd.qcut`. */
  const QUINTILE_LABELS: seq<string> := ["Q1", "Q2", "Q3", "Q4", "Q5"]

  function Label(q: nat): (s: string)
    requires q < QUINTILE_COUNT
    ensures s == QUINTILE_LABELS[q]
    ensures |s| == 2 && s[0] == 'Q' && s[1] == "12345"[q]
  {
    QUINTILE_LABELS[q]
  }

  /** One row of the merged frame as one factor's analysis sees it. */
  datatype Observation = Observation(factor: Option<real>, latency: Option<real>, quintile: Option<nat>)

  /** Zips the factor column, the latency column and the quintile column of one frame. */
  function Observations(factor: seq<Option<real>>, latency: seq<Option<real>>, labels: seq<Option<nat>>): (obs: seq<Observation>)
    requires |factor| == |latency| == |labels|
    ensures |obs| == |factor|
    ensures forall i :: 0 <= i < |obs| ==> obs[i] == Observation(factor[i], latency[i], labels[i])
  {
    if |factor| == 0 then []
    else Observations(factor[..|factor| - 1], latency[..|latency| - 1], labels[..|labels| - 1])
         + [Observation(factor[|factor| - 1], latency[|latency| - 1], labels[|labels| - 1])]
  }

  /** `grp['Latency (s)'].dropna()` for the group of quintile q, in record order. */
  function Latencies(obs: seq<Observation>, q: nat): (xs: seq<real>)
    ensures |xs| <= |obs|
  {
    if |obs| == 0 then []
    else
      var last := obs[|obs| - 1];
      Latencies(obs[..|obs| - 1], q)
      + (if last.quintile == Some(q) && last.latency.Some? then [last.latency.value] else [])
  }

  /** `grp[factor_col].dropna()` for the group of quintile q, in record order. */
  function FactorValues(obs: seq<Observation>, q: nat): (xs: seq<real>)
    ensures |xs| <= |obs|
  {
    if |obs| == 0 then []
    else
      var last := obs[|obs| - 1];
      FactorValues(obs[..|obs| - 1], q)
      + (if last.quintile == Some(q) && last.factor.Some? then [last.factor.value] else [])
  }

  /** A value belongs to a group's latencies exactly when some record of that quintile carries it. */
  lemma {:induction false} LatenciesMembership(obs: seq<Observation>, q: nat, x: real)
    ensures x in Latencies(obs, q) <==> exists i :: 0 <= i < |obs| && obs[i].quintile == Some(q) && obs[i].latency == Some(x)
  {
    if |obs| > 0 {
      var init := obs[..|obs| - 1];
      LatenciesMembership(init, q, x);
      if x in Latencies(init, q) {
        var i :| 0 <= i < |init| && init[i].quintile == Some(q) && init[i].latency == Some(x);
        assert obs[i] == init[i];
      }
      if exists i :: 0 <= i < |obs| && obs[i].quintile == Some(q) && obs[i].latency == Some(x) {
        var i :| 0 <= i < |obs| && obs[i].quintile == Some(q) && obs[i].latency == Some(x);
        if i < |init| {
          assert init[i] == obs[i];
        }
      }
    }
  }

  /** A value belongs to a group's factor values exactly when some record of that quintile carries it. */
  lemma {:induction false} FactorValuesMembership(obs: seq<Observation>, q: nat, x: real)
    ensures x in FactorValues(obs, q) <==> exists i :: 0 <= i < |obs| && obs[i].quintile == Some(q) && obs[i].factor == Some(x)
  {
    if |obs| > 0 {
      var init := obs[..|obs| - 1];
      FactorValuesMembership(init, q, x);
      if x in FactorValues(init, q) {
        var i :| 0 <= i < |init| && init[i].quintile == Some(q) && init[i].factor == Some(x);
        assert obs[i] == init[i];
      }
      if exists i :: 0 <= i < |obs| && obs[i].quintile == Some(q) && obs[i].factor == Some(x) {
        var i :| 0 <= i < |obs| && obs[i].quintile == Some(q) && obs[i].factor == Some(x);
        if i < |init| {
          assert init[i] == obs[i];
        }
      }
    }
  }

  /**
   * A group's factor values are empty exactly when no record of that
   * quintile has a factor value, which is when the summary skips it.
   */
  lemma {:induction false} FactorValuesNonEmpty(obs: seq<Observation>, q: nat)
    ensures |FactorValues(obs, q)| > 0 <==> exists i :: 0 <= i < |obs| && obs[i].quintile == Some(q) && obs[i].factor.Some?
  {
    if |obs| > 0 {
      var init := obs[..|obs| - 1];
      FactorValuesNonEmpty(init, q);
      if |FactorValues(init, q)| > 0 {
        var i :| 0 <= i < |init| && init[i].quintile == Some(q) && init[i].factor.Some?;
        assert obs[i] == init[i];
      }
      if exists i :: 0 <= i < |obs| && obs[i].quintile == Some(q) && obs[i].factor.Some? {
        var i :| 0 <= i < |obs| && obs[i].quintile == Some(q) && obs[i].factor.Some?;
        if i < |init| {
          assert init[i] == obs[i];
        }
      }
    }
  }

  /** The number of records of quintile q whose latency is present. */
  function CountLabelled(obs: seq<Observation>, q: nat): nat
  {
    if |obs| == 0 then 0
    else
      var last := obs[|obs| - 1];
      CountLabelled(obs[..|obs| - 1], q) + (if last.quintile == Some(q) && last.latency.Some? then 1 else 0)
  }

  /** The Count column of the summary equals the number of labelled records with a latency. */
  lemma {:induction false} LatenciesCount(obs: seq<Observation>, q: nat)
    ensures |Latencies(obs, q)| == CountLabelled(obs, q)
  {
    if |obs| > 0 {
      LatenciesCount(obs[..|obs| - 1], q);
    }
  }

  /**
   * The latency groups of a `groupby(quintile_col, observed=False)`:
   * one per category Q1..Q5, whether or not it holds any record.
   */
  method CollectGroups(obs: seq<Observation>) returns (groups: seq<seq<real>>)
    ensures |groups| == QUINTILE_COUNT
    ensures forall q :: 0 <= q < QUINTILE_COUNT ==> groups[q] == Latencies(obs, q)
  {
    groups := [];
    for q := 0 to QUINTILE_COUNT
      invariant |groups| == q
      invariant forall k :: 0 <= k < q ==> groups[k] == Latencies(obs, k)
    {
      groups := groups + [Latencies(obs, q)];
    }
  }

  /** One row of a quintile summary table: its label and the number of latencies summarised. */
  datatype SummaryRow = SummaryRow(quintile: nat, count: nat)

  /** A quintile gets a summary row only when both its factor values and its latencies are non-empty. */
  predicate HasSummary(obs: seq<Observation>, q: nat)
  {
    |FactorValues(obs, q)| > 0 && |Latencies(obs, q)| > 0
  }

  /** The summary rows for quintiles 0..n-1, in quintile order. */
  function SummaryUpTo(obs: seq<Observation>, n: nat): seq<SummaryRow>
  {
    if n == 0 then []
    else
      SummaryUpTo(obs, n - 1)
      + (if HasSummary(obs, n - 1) then [SummaryRow(n - 1, |Latencies(obs, n - 1)|)] else [])
  }

  /** The summary loop of the two report scripts, over the five categories in order. */
  method Summarize(obs: seq<Observation>) returns (rows: seq<SummaryRow>)
    ensures rows == SummaryUpTo(obs, QUINTILE_COUNT)
  {
    rows := [];
    for q := 0 to QUINTILE_COUNT
      invariant rows == SummaryUpTo(obs, q)
    {
      var factorValues := FactorValues(obs, q);
      var latencies := Latencies(obs, q);
      if |factorValues| == 0 || |latencies| == 0 {
        continue;
      }
      rows := rows + [SummaryRow(q, |latencies|)];
    }
  }

  /**
   * Every summary row names a quintile below n that has both factor
   * values and latencies, with its positive latency count, and the rows
   * come in increasing quintile order.
   */
  lemma {:induction false} SummaryRowsValid(obs: seq<Observation>, n: nat)
    ensures forall row :: row in SummaryUpTo(obs, n) ==>
              row.quintile < n && HasSummary(obs, row.quintile)
              && row.count == |Latencies(obs, row.quintile)| && row.count > 0
    ensures forall i, j :: 0 <= i < j < |SummaryUpTo(obs, n)| ==>
              SummaryUpTo(obs, n)[i].quintile < SummaryUpTo(obs, n)[j].quintile
  {
    if n > 0 {
      SummaryRowsValid(obs, n - 1);
    }
  }

  /** Every quintile below n with both factor values and latencies has a summary row. */
  lemma {:induction false} SummaryComplete(obs: seq<Observation>, n: nat)
    ensures forall q :: 0 <= q < n && HasSummary(obs, q) ==>
              exists row :: row in SummaryUpTo(obs, n) && row.quintile == q
  {
    if n > 0 {
      SummaryComplete(obs, n - 1);
      var init := SummaryUpTo(obs, n - 1);
      var rows := SummaryUpTo(obs, n);
      assert forall row :: row in init ==> row in rows;
      if HasSummary(obs, n - 1) {
        assert rows[|rows| - 1] == SummaryRow(n - 1, |Latencies(obs, n - 1)|);
      }
    }
  }

  /**
   * The summary has a row for quintile q exactly when some record of q
   * has a factor value and some record of q has a latency; otherwise
   * the summary loop skips q.
   */
  lemma SummaryRowIffRecords(obs: seq<Observation>, q: nat)
    requires q < QUINTILE_COUNT
    ensures (exists row :: row in SummaryUpTo(obs, QUINTILE_COUNT) && row.quintile == q)
            <==> (exists i :: 0 <= i < |obs| && obs[i].quintile == Some(q) && obs[i].factor.Some?)
                 && (exists j :: 0 <= j < |obs| && obs[j].quintile == Some(q) && obs[j].latency.Some?)
  {
    SummaryRowsValid(obs, QUINTILE_COUNT);
    SummaryComplete(obs, QUINTILE_COUNT);
    FactorValuesNonEmpty(obs, q);
    var xs := Latencies(obs, q);
    if |xs| > 0 {
      LatenciesMembership(obs, q, xs[0]);
    }
    if exists j :: 0 <= j < |obs| && obs[j].quintile == Some(q) && obs[j].latency.Some? {
      var j :| 0 <= j < |obs| && obs[j].quintile == Some(q) && obs[j].latency.Some?;
      LatenciesMembership(obs, q, obs[j].latency.value);
    }
    assert |xs| > 0 <==> exists j :: 0 <= j < |obs| && obs[j].quintile == Some(q) && obs[j].latency.Some?;
    assert (exists row :: row in SummaryUpTo(obs, QUINTILE_COUNT) && row.quintile == q) <==> HasSummary(obs, q);
  }

  /** An empty quintile never appears in the summary. */
  lemma EmptyQuintileSkipped(obs: seq<Observation>, q: nat)
    requires q < QUINTILE_COUNT
    requires |Latencies(obs, q)| == 0 || |FactorValues(obs, q)| == 0
    ensures forall row :: row in SummaryUpTo(obs, QUINTILE_COUNT) ==> row.quintile != q
  {
    SummaryRowsValid(obs, QUINTILE_COUNT);
  }

  /**
   * `series.unique()`: the distinct values in order of first appearance.
   */
  function Unique(s: seq<nat>): (u: seq<nat>)
    ensures forall x :: x in u <==> x in s
    ensures forall i, j :: 0 <= i < j < |u| ==> u[i] != u[j]
  {
    if |s| == 0 then []
    else
      var u := Unique(s[..|s| - 1]);
      var x := s[|s| - 1];
      assert forall y :: y in s <==> y in s[..|s| - 1] || y == x;
      if x in u then u else u + [x]
  }

  /** The position of the first occurrence of x in s. */
  function FirstIndex(s: seq<nat>, x: nat): (i: nat)
    requires x in s
    ensures i < |s| && s[i] == x
    ensures forall k :: 0 <= k < i ==> s[k] != x
  {
    if s[0] == x then 0 else 1 + FirstIndex(s[1..], x)
  }

  lemma FirstIndexOfPrefix(s: seq<nat>, n: nat, x: nat)
    requires n <= |s| && x in s[..n]
    ensures x in s && FirstIndex(s, x) == FirstIndex(s[..n], x)
  {
    var k := FirstIndex(s[..n], x);
    assert s[k] == x;
  }

  /** The distinct values come out in the order in which each first appears. */
  lemma {:induction false} UniqueFirstAppearanceOrder(s: seq<nat>)
    ensures forall i, j :: 0 <= i < j < |Unique(s)| ==> FirstIndex(s, Unique(s)[i]) < FirstIndex(s, Unique(s)[j])
  {
    if |s| > 0 {
      var init := s[..|s| - 1];
      var x := s[|s| - 1];
      UniqueFirstAppearanceOrder(init);
      var u := Unique(init);
      forall y | y in u
        ensures FirstIndex(s, y) == FirstIndex(init, y)
      {
        FirstIndexOfPrefix(s, |s| - 1, y);
      }
      if x !in u {
        assert x !in init;
        forall y | y in u
          ensures FirstIndex(s, y) < FirstIndex(s, x)
        {
          assert FirstIndex(s, x) == |s| - 1;
        }
      }
    }
  }

  /**
   * The latencies of the records carrying label g, without dropping
   * missing ones (the per-function script compares `combined_data[group] == g`).
   */
  function LatenciesWithLabel(labels: seq<nat>, latency: seq<real>, g: nat): (xs: seq<real>)
    requires |labels| == |latency|
    ensures |xs| <= |labels|
  {
    if |labels| == 0 then []
    else
      LatenciesWithLabel(labels[..|labels| - 1], latency[..|latency| - 1], g)
      + (if labels[|labels| - 1] == g then [latency[|latency| - 1]] else [])
  }

  /** The Kruskal-Wallis groups of the per-function script: one per distinct label, in first-appearance order. */
  function KruskalGroups(labels: seq<nat>, latency: seq<real>): (groups: seq<seq<real>>)
    requires |labels| == |latency|
    ensures |groups| == |Unique(labels)|
    ensures forall k :: 0 <= k < |groups| ==> groups[k] == LatenciesWithLabel(labels, latency, Unique(labels)[k])
  {
    var u := Unique(labels);
    seq(|u|, k requires 0 <= k < |u| => LatenciesWithLabel(labels, latency, u[k]))
  }

  /** A latency is in a label's group exactly when some record with that label carries it. */
  lemma {:induction false} LatenciesWithLabelMembership(labels: seq<nat>, latency: seq<real>, g: nat, x: real)
    requires |labels| == |latency|
    ensures x in LatenciesWithLabel(labels, latency, g) <==> exists i :: 0 <= i < |labels| && labels[i] == g && latency[i] == x
  {
    if |labels| > 0 {
      var init := labels[..|labels| - 1];
      var initLatency := latency[..|latency| - 1];
      LatenciesWithLabelMembership(init, initLatency, g, x);
      if x in LatenciesWithLabel(init, initLatency, g) {
        var i :| 0 <= i < |init| && init[i] == g && initLatency[i] == x;
        assert labels[i] == init[i] && latency[i] == initLatency[i];
      }
      if exists i :: 0 <= i < |labels| && labels[i] == g && latency[i] == x {
        var i :| 0 <= i < |labels| && labels[i] == g && latency[i] == x;
        if i < |init| {
          assert init[i] == labels[i] && initLatency[i] == latency[i];
        }
      }
    }
  }

  /** The group of a label is non-empty exactly when some record carries that label. */
  lemma {:induction false} LatenciesWithLabelNonEmpty(labels: seq<nat>, latency: seq<real>, g: nat)
    requires |labels| == |latency|
    ensures |LatenciesWithLabel(labels, latency, g)| > 0 <==> g in labels
  {
    if |labels| > 0 {
      var init := labels[..|labels| - 1];
      LatenciesWithLabelNonEmpty(init, latency[..|latency| - 1], g);
      assert forall y :: y in labels <==> y in init || y == labels[|labels| - 1];
    }
  }

  /**
   * The quintile columns a script has added to its frame, by column
   * name (`f"{factor_col}_Q"`). The frame is shared between the report
   * steps, so one step sees the columns an earlier step assigned.
   */
  class QuintileColumns {
    var columns: map<string, seq<Option<nat>>>

    constructor()
      ensures columns == map[]
    {
      columns := map[];
    }

    /** `df[name] = pd.qcut(...)`: always (re)assigns. */
    method Assign(name: string, labels: seq<Option<nat>>)
      modifies this
      ensures columns == old(columns)[name := labels]
    {
      columns := columns[name := labels];
    }

    /** `if name not in df.columns: df[name] = pd.qcut(...)`: an existing column is reused. */
    method EnsureAssigned(name: string, labels: seq<Option<nat>>)
      modifies this
      ensures name in old(columns) ==> columns == old(columns)
      ensures name !in old(columns) ==> columns == old(columns)[name := labels]
      ensures name in columns
    {
      if name !in columns {
        columns := columns[name := labels];
      }
    }
  }

  /** The quintile column name the Phase 1 and Phase 2 scripts derive from a factor column. */
  function QuintileColumn(factor: string): (name: string)
    ensures |name| == |factor| + 2 && name[..|factor|] == factor && name[|factor|..] == "_Q"
  {
    factor + "_Q"
  }
}
