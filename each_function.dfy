/**
 * The tests the per-function script runs on each merged frame: when the
 * frame is not empty, a Kruskal-Wallis test and then a Dunn post-hoc
 * test for each of its three quintile columns, in a fixed order. The
 * Dunn test runs whatever the Kruskal-Wallis result says; only the
 * printed message depends on it.
 */
module EachFunction {
  import opened Stats
  import opened Quintiles

  /** The quintile columns the script adds to the merged frame, in the order it tests them. */
  const GROUP_COLUMNS: seq<string> := ["Gas Price Quintile", "Block Size Quintile", "Transaction Count Quintile"]

  /** A quintile column of the merged frame (one label per row) and the KW result for it, an input. */
  datatype GroupColumn = GroupColumn(labels: seq<nat>, kw: KruskalResult)

  /** One test run: a KW test with the groups passed to it and the message printed, or a Dunn test. */
  datatype Step = KruskalStep(column: string, groups: seq<seq<real>>, message: string) | DunnStep(column: string)

  /**
   * `perform_kruskal_and_summary`: one group per distinct label of the
   * column, in order of first appearance, none of them empty, each
   * holding exactly the latencies of the rows with that label; the
   * message recommends a post-hoc analysis exactly when p < 0.05.
   */
  function KruskalAndSummary(latency: seq<real>, name: string, c: GroupColumn): (s: Step)
    requires |c.labels| == |latency|
    ensures s.KruskalStep? && s.column == name
    ensures s.groups == KruskalGroups(c.labels, latency)
    ensures |s.groups| == |Unique(c.labels)|
    ensures forall k :: 0 <= k < |s.groups| ==> |s.groups[k]| > 0
    ensures forall k, x :: 0 <= k < |s.groups| ==>
              (x in s.groups[k] <==> exists i :: 0 <= i < |latency| && c.labels[i] == Unique(c.labels)[k] && latency[i] == x)
    ensures s.message == "Significant differences detected in " + name + ". Post-hoc analysis recommended."
            <==> Significant(c.kw.p)
  {
    var groups := KruskalGroups(c.labels, latency);
    assert forall k :: 0 <= k < |groups| ==> |groups[k]| > 0 by {
      forall k | 0 <= k < |groups|
        ensures |groups[k]| > 0
      {
        LatenciesWithLabelNonEmpty(c.labels, latency, Unique(c.labels)[k]);
      }
    }
    assert forall k, x :: 0 <= k < |groups| ==>
             (x in groups[k] <==> exists i :: 0 <= i < |latency| && c.labels[i] == Unique(c.labels)[k] && latency[i] == x) by {
      forall k, x | 0 <= k < |groups|
        ensures x in groups[k] <==> exists i :: 0 <= i < |latency| && c.labels[i] == Unique(c.labels)[k] && latency[i] == x
      {
        LatenciesWithLabelMembership(c.labels, latency, Unique(c.labels)[k], x);
      }
    }
    KruskalStep(name, groups, KruskalMessage(name, c.kw.p))
  }

  predicate Fits(latency: seq<real>, columns: seq<GroupColumn>)
  {
    |columns| == |GROUP_COLUMNS| && forall i :: 0 <= i < |columns| ==> |columns[i].labels| == |latency|
  }

  /** The steps for the first n quintile columns: the KW test of each, then its Dunn test. */
  function StepsUpTo(latency: seq<real>, columns: seq<GroupColumn>, n: nat): seq<Step>
    requires Fits(latency, columns) && n <= |columns|
  {
    if n == 0 then []
    else StepsUpTo(latency, columns, n - 1)
         + [KruskalAndSummary(latency, GROUP_COLUMNS[n - 1], columns[n - 1]), DunnStep(GROUP_COLUMNS[n - 1])]
  }

  /** The module-level run on one merged frame: nothing when it is empty. */
  function AnalysisSteps(latency: seq<real>, columns: seq<GroupColumn>): seq<Step>
    requires Fits(latency, columns)
  {
    if |latency| == 0 then [] else StepsUpTo(latency, columns, |columns|)
  }

  lemma {:induction false} StepsUpToOrder(latency: seq<real>, columns: seq<GroupColumn>, n: nat)
    requires Fits(latency, columns) && n <= |columns|
    ensures |StepsUpTo(latency, columns, n)| == 2 * n
    ensures forall i :: 0 <= i < n ==>
              StepsUpTo(latency, columns, n)[2 * i] == KruskalAndSummary(latency, GROUP_COLUMNS[i], columns[i])
              && StepsUpTo(latency, columns, n)[2 * i + 1] == DunnStep(GROUP_COLUMNS[i])
  {
    if n > 0 {
      StepsUpToOrder(latency, columns, n - 1);
    }
  }

  /**
   * An empty frame runs no test. Otherwise six steps run: for each
   * quintile column in turn its KW test, whose message says "Significant
   * differences detected" exactly when p < 0.05, then its Dunn test,
   * whatever p is.
   */
  lemma AnalysisStepsOrder(latency: seq<real>, columns: seq<GroupColumn>)
    requires Fits(latency, columns)
    ensures |latency| == 0 ==> AnalysisSteps(latency, columns) == []
    ensures |latency| > 0 ==>
      var steps := AnalysisSteps(latency, columns);
      |steps| == 6
      && forall i :: 0 <= i < 3 ==>
           steps[2 * i].KruskalStep? && steps[2 * i].column == GROUP_COLUMNS[i]
           && (steps[2 * i].message == "Significant differences detected in " + GROUP_COLUMNS[i] + ". Post-hoc analysis recommended."
               <==> Significant(columns[i].kw.p))
           && steps[2 * i + 1] == DunnStep(GROUP_COLUMNS[i])
  {
    if |latency| > 0 {
      StepsUpToOrder(latency, columns, |columns|);
    }
  }
}
