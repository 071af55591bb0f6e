/**
 * The post-hoc pair table: for every pair i < j of the groups of a Dunn
 * p-value matrix, in lexicographic order, one row labelled "Qi vs Qj"
 * with the pair's p-value, whether it is significant, and Cliff's delta
 * when the script's policy computes and shows it.
 */
module PairTable {
  import opened Wrappers
  import opened Stats
  import opened Cliffs
  import opened Quintiles

  /**
   * When a script computes delta and when it shows it:
   * - SignificantOnly: computes and shows it only for p < 0.05 (the two
   *   Statistical_analysis scripts);
   * - ComputeAllShowSignificant: computes it for every pair, shows it only
   *   for p < 0.05 (Phase 1);
   * - ComputeAllShowAll: computes and shows it for every pair, with a
   *   separate Yes/No significance column (Phase 2).
   */
  datatype DeltaPolicy = SignificantOnly | ComputeAllShowSignificant | ComputeAllShowAll

  predicate NeedsDelta(policy: DeltaPolicy, p: real)
  {
    policy != SignificantOnly || Significant(p)
  }

  predicate ShowsDelta(policy: DeltaPolicy, p: real)
  {
    policy == ComputeAllShowAll || Significant(p)
  }

  /**
   * The Dunn post-hoc result: the group labels of its index, in order,
   * and the square matrix of pairwise p-values. An input.
   */
  datatype DunnMatrix = DunnMatrix(groups: seq<nat>, p: seq<seq<real>>)
  {
    predicate WellFormed()
    {
      |p| == |groups|
      && (forall i :: 0 <= i < |p| ==> |p[i]| == |groups|)
      && (forall i :: 0 <= i < |groups| ==> groups[i] < QUINTILE_COUNT)
    }
  }

  /** The matrix the Phase 1 and Phase 2 scripts index by the fixed labels Q1..Q5. */
  predicate FixedQuintiles(m: DunnMatrix)
  {
    m.WellFormed() && m.groups == [0, 1, 2, 3, 4]
  }

  /**
   * One table row. `significant` is the "Yes"/"No" (or the
   * "Not significant" placeholder) decision; `delta` is the effect
   * size shown in the row, if any.
   */
  datatype PairRow = PairRow(comparison: string, p: real, significant: bool, delta: Option<real>)

  /** Cliff's delta on an empty group divides by zero; the script stops with that error. */
  datatype TableError = EmptyGroup(quintile: nat)

  /** The pairs (i, i+1), ..., (i, j-1): the inner loop up to j. */
  function RowPairs(i: nat, j: nat): (ps: seq<(nat, nat)>)
    ensures |ps| == if j <= i + 1 then 0 else j - i - 1
    ensures forall t :: 0 <= t < |ps| ==> ps[t] == (i, i + 1 + t)
  {
    if j <= i + 1 then [] else RowPairs(i, j - 1) + [(i, j - 1)]
  }

  /** All pairs whose first index is below i, each with its second index below k. */
  function PairsBefore(i: nat, k: nat): seq<(nat, nat)>
  {
    if i == 0 then [] else PairsBefore(i - 1, k) + RowPairs(i - 1, k)
  }

  /** The order in which the nested loops visit the pairs of k groups. */
  function ComparisonPairs(k: nat): seq<(nat, nat)>
  {
    PairsBefore(k, k)
  }

  /** Lexicographic order on index pairs. */
  predicate PairLess(a: (nat, nat), b: (nat, nat))
  {
    a.0 < b.0 || (a.0 == b.0 && a.1 < b.1)
  }

  /** Row i - 1 of the enumeration sits after every pair whose first index is below i - 1. */
  lemma RowPairsContents(i: nat, k: nat)
    ensures forall a: nat, b: nat :: (a, b) in RowPairs(i, k) <==> a == i && i < b < k
  {
    var row := RowPairs(i, k);
    forall a: nat, b: nat
      ensures (a, b) in row <==> a == i && i < b < k
    {
      if a == i && i < b < k {
        assert row[b - i - 1] == (a, b);
      }
    }
  }

  /** The pairs before row i are exactly those with first index below i and first < second < k. */
  lemma {:induction false} PairsBeforeMembership(i: nat, k: nat)
    requires i <= k
    ensures forall a: nat, b: nat :: (a, b) in PairsBefore(i, k) <==> a < i && a < b < k
  {
    if i > 0 {
      PairsBeforeMembership(i - 1, k);
      RowPairsContents(i - 1, k);
      var init := PairsBefore(i - 1, k);
      var row := RowPairs(i - 1, k);
      assert PairsBefore(i, k) == init + row;
      forall a: nat, b: nat
        ensures (a, b) in init + row <==> a < i && a < b < k
      {
        assert (a, b) in init + row <==> (a, b) in init || (a, b) in row;
      }
    }
  }

  /** Every pair before row i has its first index below i and its second index above the first and below k. */
  lemma {:induction false} PairsBeforeBounds(i: nat, k: nat)
    ensures forall s :: 0 <= s < |PairsBefore(i, k)| ==> PairsBefore(i, k)[s].0 < i
    ensures forall s :: 0 <= s < |PairsBefore(i, k)| ==> PairsBefore(i, k)[s].0 < PairsBefore(i, k)[s].1 < k
  {
    if i > 0 {
      PairsBeforeBounds(i - 1, k);
      var init := PairsBefore(i - 1, k);
      var row := RowPairs(i - 1, k);
      var all := init + row;
      assert PairsBefore(i, k) == all;
      forall s | 0 <= s < |all|
        ensures all[s].0 < i && all[s].0 < all[s].1 < k
      {
        if s >= |init| {
          assert all[s] == row[s - |init|];
        }
      }
    }
  }

  /** The pairs before row i come in strictly increasing lexicographic order. */
  lemma {:induction false} PairsBeforeOrdered(i: nat, k: nat)
    ensures forall s, t :: 0 <= s < t < |PairsBefore(i, k)| ==> PairLess(PairsBefore(i, k)[s], PairsBefore(i, k)[t])
  {
    if i > 0 {
      PairsBeforeOrdered(i - 1, k);
      PairsBeforeBounds(i - 1, k);
      var init := PairsBefore(i - 1, k);
      var row := RowPairs(i - 1, k);
      var all := init + row;
      assert PairsBefore(i, k) == all;
      forall s, t | 0 <= s < t < |all|
        ensures PairLess(all[s], all[t])
      {
        if t >= |init| {
          assert all[t] == row[t - |init|];
          if s >= |init| {
            assert all[s] == row[s - |init|];
          } else {
            assert all[s] == init[s];
          }
        } else {
          assert all[s] == init[s] && all[t] == init[t];
        }
      }
    }
  }

  /** Every pair i < j < k appears, and nothing else. */
  lemma ComparisonPairsMembership(k: nat, a: nat, b: nat)
    ensures (a, b) in ComparisonPairs(k) <==> a < b < k
  {
    PairsBeforeMembership(k, k);
  }

  /** The pairs come in lexicographic order, so none repeats. */
  lemma ComparisonPairsOrdered(k: nat)
    ensures forall s, t :: 0 <= s < t < |ComparisonPairs(k)| ==> PairLess(ComparisonPairs(k)[s], ComparisonPairs(k)[t])
  {
    PairsBeforeOrdered(k, k);
  }

  /** The number of pairs with first index below i. */
  lemma {:induction false} PairsBeforeLength(i: nat, k: nat)
    requires i <= k
    ensures 2 * |PairsBefore(i, k)| == i * (2 * k - i - 1)
  {
    if i > 0 {
      PairsBeforeLength(i - 1, k);
    }
  }

  /** k groups give k(k-1)/2 rows. */
  lemma ComparisonPairsLength(k: nat)
    ensures 2 * |ComparisonPairs(k)| == k * (k - 1)
  {
    PairsBeforeLength(k, k);
  }

  /** Five quintiles give ten rows, from (Q1, Q2) to (Q4, Q5). */
  lemma FivePairs()
    ensures ComparisonPairs(5) == [(0, 1), (0, 2), (0, 3), (0, 4), (1, 2), (1, 3), (1, 4), (2, 3), (2, 4), (3, 4)]
  {
    assert RowPairs(0, 5) == [(0, 1), (0, 2), (0, 3), (0, 4)];
    assert RowPairs(1, 5) == [(1, 2), (1, 3), (1, 4)];
    assert RowPairs(2, 5) == [(2, 3), (2, 4)];
    assert RowPairs(3, 5) == [(3, 4)];
    assert RowPairs(4, 5) == [];
  }

  /** The "Qi vs Qj" text of a comparison. */
  function Comparison(a: nat, b: nat): (s: string)
    requires a < QUINTILE_COUNT && b < QUINTILE_COUNT
    ensures s == QUINTILE_LABELS[a] + " vs " + QUINTILE_LABELS[b]
    ensures |s| == 8 && s[1] == "12345"[a] && s[7] == "12345"[b]
  {
    Label(a) + " vs " + Label(b)
  }

  /** The row for the pair (i, j) of the matrix; MakeRowContents states what it holds. */
  function MakeRow(obs: seq<Observation>, m: DunnMatrix, policy: DeltaPolicy, i: nat, j: nat): Result<PairRow, TableError>
    requires m.WellFormed() && i < j < |m.groups|
  {
    var a := m.groups[i];
    var b := m.groups[j];
    var p := m.p[i][j];
    var xs := Latencies(obs, a);
    var ys := Latencies(obs, b);
    if !NeedsDelta(policy, p) then
      Ok(PairRow(Comparison(a, b), p, false, None))
    else if |xs| == 0 then
      Err(EmptyGroup(a))
    else if |ys| == 0 then
      Err(EmptyGroup(b))
    else
      Ok(PairRow(Comparison(a, b), p, Significant(p), if ShowsDelta(policy, p) then Some(CliffsDelta(xs, ys)) else None))
  }

  /**
   * A row fails exactly when its policy needs delta and one of its two
   * groups is empty, naming that group. Otherwise it carries the
   * comparison label, the pair's p-value, "Yes" exactly when p < 0.05,
   * and a delta exactly when the policy shows one, which then is the
   * Cliff's delta of the two groups and lies in [-1, 1].
   */
  lemma MakeRowContents(obs: seq<Observation>, m: DunnMatrix, policy: DeltaPolicy, i: nat, j: nat)
    requires m.WellFormed() && i < j < |m.groups|
    ensures var r := MakeRow(obs, m, policy, i, j);
      (r.Err? <==>
         NeedsDelta(policy, m.p[i][j])
         && (|Latencies(obs, m.groups[i])| == 0 || |Latencies(obs, m.groups[j])| == 0))
      && (r.Err? ==>
            r.error.quintile in {m.groups[i], m.groups[j]} && |Latencies(obs, r.error.quintile)| == 0)
      && (r.Ok? ==>
            r.value.comparison == Comparison(m.groups[i], m.groups[j])
            && r.value.p == m.p[i][j]
            && (r.value.significant <==> m.p[i][j] < ALPHA)
            && (r.value.delta.Some? <==> ShowsDelta(policy, m.p[i][j]))
            && (r.value.delta.Some? ==>
                  -1.0 <= r.value.delta.value <= 1.0
                  && r.value.delta.value == CliffsDelta(Latencies(obs, m.groups[i]), Latencies(obs, m.groups[j]))))
  {
    var xs := Latencies(obs, m.groups[i]);
    var ys := Latencies(obs, m.groups[j]);
    if |xs| > 0 && |ys| > 0 {
      DeltaRange(xs, ys);
    }
  }

  predicate IsPrefix(a: seq<(nat, nat)>, b: seq<(nat, nat)>)
  {
    |a| <= |b| && b[..|a|] == a
  }

  lemma {:induction false} PairsBeforeIsPrefix(i: nat, i2: nat, k: nat)
    requires i <= i2
    ensures IsPrefix(PairsBefore(i, k), PairsBefore(i2, k))
  {
    if i < i2 {
      PairsBeforeIsPrefix(i, i2 - 1, k);
      var p := PairsBefore(i2 - 1, k);
      assert PairsBefore(i2, k) == p + RowPairs(i2 - 1, k);
      assert (p + RowPairs(i2 - 1, k))[..|p|] == p;
    }
  }

  /** Appends one row to the table built so far; the first error stops the table. */
  function Append(acc: Result<seq<PairRow>, TableError>, row: Result<PairRow, TableError>): Result<seq<PairRow>, TableError>
  {
    match acc
    case Err(e) => Err(e)
    case Ok(rows) =>
      match row
      case Err(e) => Err(e)
      case Ok(r) => Ok(rows + [r])
  }

  /**
   * How the loop body builds the row of the pair (a, b) of k groups. The
   * loop lemmas below hold for any such builder; MakeRow is the one the
   * scripts use.
   */
  type RowOf = (nat, nat) --> Result<PairRow, TableError>

  /** The builder is defined on every pair a < b < k. */
  ghost predicate Defined(row: RowOf, k: nat)
  {
    forall a: nat, b: nat :: a < b < k ==> row.requires(a, b)
  }

  /** The table once the outer loop has finished rows 0..i-1. */
  function RowsBefore(row: RowOf, k: nat, i: nat): Result<seq<PairRow>, TableError>
    requires Defined(row, k) && i <= k
    decreases i, 0
  {
    if i == 0 then Ok([]) else RowsWithin(row, k, i - 1, k)
  }

  /** The table once the inner loop of row i has reached column j. */
  function RowsWithin(row: RowOf, k: nat, i: nat, j: nat): Result<seq<PairRow>, TableError>
    requires Defined(row, k) && i < k && j <= k
    decreases i, j + 1
  {
    if j <= i + 1 then RowsBefore(row, k, i)
    else Append(RowsWithin(row, k, i, j - 1), row(i, j - 1))
  }

  /** The builder of the scripts' rows for a matrix. */
  function RowFn(obs: seq<Observation>, m: DunnMatrix, policy: DeltaPolicy): (row: RowOf)
    requires m.WellFormed()
    ensures Defined(row, |m.groups|)
  {
    (a: nat, b: nat) requires m.WellFormed() && a < b < |m.groups| => MakeRow(obs, m, policy, a, b)
  }

  /** The table the script produces for its matrix. */
  function PairTableSpec(obs: seq<Observation>, m: DunnMatrix, policy: DeltaPolicy): Result<seq<PairRow>, TableError>
    requires m.WellFormed()
  {
    RowsBefore(RowFn(obs, m, policy), |m.groups|, |m.groups|)
  }

  /** The position of the pair (a, b) in the enumeration of k groups. */
  function PairIndex(a: nat, b: nat, k: nat): nat
    requires a < b
  {
    |PairsBefore(a, k)| + (b - a - 1)
  }

  /** A pair of row a sits before every pair of a later row. */
  lemma PairIndexBound(a: nat, b: nat, i: nat, k: nat)
    requires a < b < k && a < i <= k
    ensures PairIndex(a, b, k) < |PairsBefore(i, k)|
  {
    assert PairsBefore(a + 1, k) == PairsBefore(a, k) + RowPairs(a, k);
    PairsBeforeIsPrefix(a + 1, i, k);
  }

  /** The enumeration holds the pair (a, b) at PairIndex(a, b, k). */
  lemma ComparisonPairsAt(a: nat, b: nat, k: nat)
    requires a < b < k
    ensures PairIndex(a, b, k) < |ComparisonPairs(k)| && ComparisonPairs(k)[PairIndex(a, b, k)] == (a, b)
  {
    var next := PairsBefore(a + 1, k);
    assert next == PairsBefore(a, k) + RowPairs(a, k);
    assert next[PairIndex(a, b, k)] == (a, b);
    PairsBeforeIsPrefix(a + 1, k, k);
    assert ComparisonPairs(k)[..|next|] == next;
  }

  /** The pairs visited before row i. */
  predicate VisitedBefore(a: nat, b: nat, i: nat, k: nat)
  {
    a < b < k && a < i
  }

  /** The pairs visited once the inner loop of row i has reached column j. */
  predicate VisitedWithin(a: nat, b: nat, i: nat, j: nat, k: nat)
  {
    a < b < k && (a < i || (a == i && b < j))
  }

  /** The table before row i has a row per pair visited so far. */
  lemma {:induction false} RowsBeforeLength(row: RowOf, k: nat, i: nat)
    requires Defined(row, k) && i <= k
    requires RowsBefore(row, k, i).Ok?
    ensures |RowsBefore(row, k, i).value| == |PairsBefore(i, k)|
    decreases i, 0
  {
    if i > 0 {
      RowsWithinLength(row, k, i - 1, k);
      assert PairsBefore(i, k) == PairsBefore(i - 1, k) + RowPairs(i - 1, k);
    }
  }

  /** The same as RowsBeforeLength, inside the inner loop of row i. */
  lemma {:induction false} RowsWithinLength(row: RowOf, k: nat, i: nat, j: nat)
    requires Defined(row, k) && i < k && i + 1 <= j <= k
    requires RowsWithin(row, k, i, j).Ok?
    ensures |RowsWithin(row, k, i, j).value| == |PairsBefore(i, k)| + (j - i - 1)
    decreases i, j + 1
  {
    if j == i + 1 {
      RowsBeforeLength(row, k, i);
    } else {
      RowsWithinLength(row, k, i, j - 1);
    }
  }

  /**
   * When the table built before row i has not failed, the row of each
   * visited pair (a, b) sits at position PairIndex(a, b, k).
   */
  lemma {:induction false} RowsBeforeAt(row: RowOf, k: nat, i: nat, a: nat, b: nat)
    requires Defined(row, k) && i <= k
    requires RowsBefore(row, k, i).Ok? && VisitedBefore(a, b, i, k)
    ensures PairIndex(a, b, k) < |RowsBefore(row, k, i).value|
    ensures row(a, b) == Ok(RowsBefore(row, k, i).value[PairIndex(a, b, k)])
    decreases i, 0
  {
    RowsWithinAt(row, k, i - 1, k, a, b);
  }

  /** The same as RowsBeforeAt, inside the inner loop of row i. */
  lemma {:induction false} RowsWithinAt(row: RowOf, k: nat, i: nat, j: nat, a: nat, b: nat)
    requires Defined(row, k) && i < k && i + 1 <= j <= k
    requires RowsWithin(row, k, i, j).Ok? && VisitedWithin(a, b, i, j, k)
    ensures PairIndex(a, b, k) < |RowsWithin(row, k, i, j).value|
    ensures row(a, b) == Ok(RowsWithin(row, k, i, j).value[PairIndex(a, b, k)])
    decreases i, j + 1
  {
    if j == i + 1 {
      RowsBeforeAt(row, k, i, a, b);
    } else {
      var prev := RowsWithin(row, k, i, j - 1);
      var last := row(i, j - 1);
      var rows := prev.value + [last.value];
      assert RowsWithin(row, k, i, j) == Ok(rows);
      if a == i && b == j - 1 {
        RowsWithinLength(row, k, i, j - 1);
        assert rows[|prev.value|] == last.value;
      } else {
        RowsWithinAt(row, k, i, j - 1, a, b);
        assert rows[PairIndex(a, b, k)] == prev.value[PairIndex(a, b, k)];
      }
    }
  }

  /** A table that failed before row i failed at the row of a visited pair, with that row's error. */
  lemma {:induction false} RowsBeforeFailure(row: RowOf, k: nat, i: nat) returns (a: nat, b: nat)
    requires Defined(row, k) && i <= k
    requires RowsBefore(row, k, i).Err?
    ensures VisitedBefore(a, b, i, k)
    ensures row(a, b) == Err(RowsBefore(row, k, i).error)
    decreases i, 0
  {
    a, b := RowsWithinFailure(row, k, i - 1, k);
  }

  /** The same as RowsBeforeFailure, inside the inner loop of row i. */
  lemma {:induction false} RowsWithinFailure(row: RowOf, k: nat, i: nat, j: nat) returns (a: nat, b: nat)
    requires Defined(row, k) && i < k && i + 1 <= j <= k
    requires RowsWithin(row, k, i, j).Err?
    ensures VisitedWithin(a, b, i, j, k)
    ensures row(a, b) == Err(RowsWithin(row, k, i, j).error)
    decreases i, j + 1
  {
    if j == i + 1 {
      a, b := RowsBeforeFailure(row, k, i);
    } else if RowsWithin(row, k, i, j - 1).Err? {
      a, b := RowsWithinFailure(row, k, i, j - 1);
    } else {
      a, b := i, j - 1;
    }
  }

  /**
   * A row agrees with its policy: "Yes" exactly when its p-value is
   * below 0.05, a delta exactly when the policy shows one, and a shown
   * delta lies in [-1, 1].
   */
  predicate RowAgrees(r: PairRow, policy: DeltaPolicy)
  {
    (r.significant <==> Significant(r.p))
    && (r.delta.Some? <==> ShowsDelta(policy, r.p))
    && (r.delta.Some? ==> -1.0 <= r.delta.value <= 1.0)
  }

  /** Every row the builder produces agrees with the policy. */
  predicate BuilderAgrees(row: RowOf, k: nat, policy: DeltaPolicy)
    requires Defined(row, k)
  {
    forall a: nat, b: nat :: a < b < k && row(a, b).Ok? ==> RowAgrees(row(a, b).value, policy)
  }

  lemma {:induction false} RowsBeforeAgree(row: RowOf, k: nat, policy: DeltaPolicy, i: nat, t: nat)
    requires Defined(row, k) && BuilderAgrees(row, k, policy) && i <= k
    requires RowsBefore(row, k, i).Ok? && t < |RowsBefore(row, k, i).value|
    ensures RowAgrees(RowsBefore(row, k, i).value[t], policy)
    decreases i, 0
  {
    RowsWithinAgree(row, k, policy, i - 1, k, t);
  }

  lemma {:induction false} RowsWithinAgree(row: RowOf, k: nat, policy: DeltaPolicy, i: nat, j: nat, t: nat)
    requires Defined(row, k) && BuilderAgrees(row, k, policy) && i < k && i + 1 <= j <= k
    requires RowsWithin(row, k, i, j).Ok? && t < |RowsWithin(row, k, i, j).value|
    ensures RowAgrees(RowsWithin(row, k, i, j).value[t], policy)
    decreases i, j + 1
  {
    if j == i + 1 {
      RowsBeforeAgree(row, k, policy, i, t);
    } else {
      var prev := RowsWithin(row, k, i, j - 1);
      var last := row(i, j - 1);
      var rows := prev.value + [last.value];
      assert RowsWithin(row, k, i, j) == Ok(rows);
      if t < |prev.value| {
        RowsWithinAgree(row, k, policy, i, j - 1, t);
        assert rows[t] == prev.value[t];
      } else {
        assert rows[t] == last.value;
      }
    }
  }

  /**
   * The whole table fails exactly when the row of some pair a < b
   * fails, and then with the error of such a row.
   */
  lemma PairTableOutcome(obs: seq<Observation>, m: DunnMatrix, policy: DeltaPolicy)
    requires m.WellFormed()
    ensures var r := PairTableSpec(obs, m, policy);
      (r.Ok? <==> forall a: nat, b: nat :: a < b < |m.groups| ==> MakeRow(obs, m, policy, a, b).Ok?)
      && (r.Err? ==> exists a: nat, b: nat :: a < b < |m.groups| && MakeRow(obs, m, policy, a, b) == Err(r.error))
  {
    var k := |m.groups|;
    var row := RowFn(obs, m, policy);
    var r := PairTableSpec(obs, m, policy);
    if r.Ok? {
      forall a: nat, b: nat | a < b < k
        ensures MakeRow(obs, m, policy, a, b).Ok?
      {
        RowsBeforeAt(row, k, k, a, b);
      }
    } else {
      var a, b := RowsBeforeFailure(row, k, k);
      assert MakeRow(obs, m, policy, a, b) == Err(r.error);
    }
  }

  /**
   * A table that does not fail holds k(k-1)/2 rows in the enumeration
   * order: the row of (a, b) sits where ComparisonPairs(k) holds (a, b).
   */
  lemma PairTableLayout(obs: seq<Observation>, m: DunnMatrix, policy: DeltaPolicy)
    requires m.WellFormed() && PairTableSpec(obs, m, policy).Ok?
    ensures var rows := PairTableSpec(obs, m, policy).value;
      var k := |m.groups|;
      2 * |rows| == k * (k - 1)
      && forall a: nat, b: nat :: a < b < k ==>
           PairIndex(a, b, k) < |rows|
           && PairIndex(a, b, k) < |ComparisonPairs(k)|
           && ComparisonPairs(k)[PairIndex(a, b, k)] == (a, b)
           && MakeRow(obs, m, policy, a, b) == Ok(rows[PairIndex(a, b, k)])
  {
    var k := |m.groups|;
    var row := RowFn(obs, m, policy);
    var rows := PairTableSpec(obs, m, policy).value;
    assert 2 * |rows| == k * (k - 1) by {
      RowsBeforeLength(row, k, k);
      PairsBeforeLength(k, k);
    }
    forall a: nat, b: nat | a < b < k
      ensures PairIndex(a, b, k) < |rows|
              && PairIndex(a, b, k) < |ComparisonPairs(k)|
              && ComparisonPairs(k)[PairIndex(a, b, k)] == (a, b)
              && MakeRow(obs, m, policy, a, b) == Ok(rows[PairIndex(a, b, k)])
    {
      RowsBeforeAt(row, k, k, a, b);
      ComparisonPairsAt(a, b, k);
    }
  }

  /** Every row of a table that does not fail agrees with the policy. */
  lemma PairTableRowsAgree(obs: seq<Observation>, m: DunnMatrix, policy: DeltaPolicy)
    requires m.WellFormed() && PairTableSpec(obs, m, policy).Ok?
    ensures forall t :: 0 <= t < |PairTableSpec(obs, m, policy).value| ==> RowAgrees(PairTableSpec(obs, m, policy).value[t], policy)
  {
    var k := |m.groups|;
    var row := RowFn(obs, m, policy);
    assert BuilderAgrees(row, k, policy) by {
      forall a: nat, b: nat | a < b < k && row(a, b).Ok?
        ensures RowAgrees(row(a, b).value, policy)
      {
        MakeRowContents(obs, m, policy, a, b);
      }
    }
    forall t | 0 <= t < |PairTableSpec(obs, m, policy).value|
      ensures RowAgrees(PairTableSpec(obs, m, policy).value[t], policy)
    {
      RowsBeforeAgree(row, k, policy, k, t);
    }
  }

  /** In a table that does not fail, the row of the pair (a, b) is labelled by the quintiles of groups a and b. */
  lemma PairTableComparisons(obs: seq<Observation>, m: DunnMatrix, policy: DeltaPolicy)
    requires m.WellFormed() && PairTableSpec(obs, m, policy).Ok?
    ensures var rows := PairTableSpec(obs, m, policy).value;
      var k := |m.groups|;
      2 * |rows| == k * (k - 1)
      && forall a: nat, b: nat :: a < b < k ==>
           PairIndex(a, b, k) < |rows| && rows[PairIndex(a, b, k)].comparison == Comparison(m.groups[a], m.groups[b])
  {
    var rows := PairTableSpec(obs, m, policy).value;
    var k := |m.groups|;
    PairTableLayout(obs, m, policy);
    forall a: nat, b: nat | a < b < k
      ensures PairIndex(a, b, k) < |rows| && rows[PairIndex(a, b, k)].comparison == Comparison(m.groups[a], m.groups[b])
    {
      MakeRowContents(obs, m, policy, a, b);
    }
  }

  /** The comparison labels of the rows, in table order. */
  function Comparisons(rows: seq<PairRow>): (labels: seq<string>)
    ensures |labels| == |rows|
    ensures forall t :: 0 <= t < |rows| ==> labels[t] == rows[t].comparison
  {
    seq(|rows|, t requires 0 <= t < |rows| => rows[t].comparison)
  }

  /** In a table indexed by Q1..Q5, the row of (a, b) is labelled "Qa vs Qb". */
  lemma FixedQuintileRow(obs: seq<Observation>, m: DunnMatrix, policy: DeltaPolicy, a: nat, b: nat)
    requires FixedQuintiles(m) && PairTableSpec(obs, m, policy).Ok? && a < b < 5
    ensures PairIndex(a, b, 5) < |PairTableSpec(obs, m, policy).value|
    ensures PairTableSpec(obs, m, policy).value[PairIndex(a, b, 5)].comparison
            == QUINTILE_LABELS[a] + " vs " + QUINTILE_LABELS[b]
  {
    PairTableComparisons(obs, m, policy);
    assert m.groups[a] == a && m.groups[b] == b;
  }

  /**
   * Indexed by Q1..Q5, a table whose policy computes delta for every pair
   * fails exactly when some quintile has no latency.
   */
  lemma FixedQuintilesEmptyGroup(obs: seq<Observation>, m: DunnMatrix, policy: DeltaPolicy)
    requires FixedQuintiles(m) && policy != SignificantOnly
    ensures PairTableSpec(obs, m, policy).Err? <==> exists q :: 0 <= q < QUINTILE_COUNT && |Latencies(obs, q)| == 0
  {
    var t := PairTableSpec(obs, m, policy);
    PairTableOutcome(obs, m, policy);
    if t.Ok? {
      forall q | 0 <= q < QUINTILE_COUNT
        ensures |Latencies(obs, q)| > 0
      {
        var a, b := if q == 0 then 0 else q - 1, if q == 0 then 1 else q;
        MakeRowContents(obs, m, policy, a, b);
      }
    } else {
      var a: nat, b: nat :| a < b < QUINTILE_COUNT && MakeRow(obs, m, policy, a, b) == Err(t.error);
      MakeRowContents(obs, m, policy, a, b);
    }
  }

  /** Ten rows, each labelled by the pair at its position, read in order. */
  lemma TenLabels(rows: seq<PairRow>)
    requires |rows| == 10
    requires forall a: nat, b: nat :: a < b < 5 ==>
               PairIndex(a, b, 5) < 10 && rows[PairIndex(a, b, 5)].comparison == QUINTILE_LABELS[a] + " vs " + QUINTILE_LABELS[b]
    ensures Comparisons(rows) == ["Q1 vs Q2", "Q1 vs Q3", "Q1 vs Q4", "Q1 vs Q5", "Q2 vs Q3",
                "Q2 vs Q4", "Q2 vs Q5", "Q3 vs Q4", "Q3 vs Q5", "Q4 vs Q5"]
  {
    PairsBeforeLength(1, 5);
    PairsBeforeLength(2, 5);
    PairsBeforeLength(3, 5);
    assert PairIndex(0, 1, 5) == 0;
    assert rows[0].comparison == QUINTILE_LABELS[0] + " vs " + QUINTILE_LABELS[1] == "Q1 vs Q2";
    assert PairIndex(0, 2, 5) == 1;
    assert rows[1].comparison == QUINTILE_LABELS[0] + " vs " + QUINTILE_LABELS[2] == "Q1 vs Q3";
    assert PairIndex(0, 3, 5) == 2;
    assert rows[2].comparison == QUINTILE_LABELS[0] + " vs " + QUINTILE_LABELS[3] == "Q1 vs Q4";
    assert PairIndex(0, 4, 5) == 3;
    assert rows[3].comparison == QUINTILE_LABELS[0] + " vs " + QUINTILE_LABELS[4] == "Q1 vs Q5";
    assert PairIndex(1, 2, 5) == 4;
    assert rows[4].comparison == QUINTILE_LABELS[1] + " vs " + QUINTILE_LABELS[2] == "Q2 vs Q3";
    assert PairIndex(1, 3, 5) == 5;
    assert rows[5].comparison == QUINTILE_LABELS[1] + " vs " + QUINTILE_LABELS[3] == "Q2 vs Q4";
    assert PairIndex(1, 4, 5) == 6;
    assert rows[6].comparison == QUINTILE_LABELS[1] + " vs " + QUINTILE_LABELS[4] == "Q2 vs Q5";
    assert PairIndex(2, 3, 5) == 7;
    assert rows[7].comparison == QUINTILE_LABELS[2] + " vs " + QUINTILE_LABELS[3] == "Q3 vs Q4";
    assert PairIndex(2, 4, 5) == 8;
    assert rows[8].comparison == QUINTILE_LABELS[2] + " vs " + QUINTILE_LABELS[4] == "Q3 vs Q5";
    assert PairIndex(3, 4, 5) == 9;
    assert rows[9].comparison == QUINTILE_LABELS[3] + " vs " + QUINTILE_LABELS[4] == "Q4 vs Q5";
  }

  /**
   * Indexed by the fixed labels Q1..Q5, a table that does not fail has
   * ten rows, labelled Q1 vs Q2 first and Q4 vs Q5 last.
   */
  lemma FixedQuintileComparisons(obs: seq<Observation>, m: DunnMatrix, policy: DeltaPolicy)
    requires FixedQuintiles(m) && PairTableSpec(obs, m, policy).Ok?
    ensures Comparisons(PairTableSpec(obs, m, policy).value) == ["Q1 vs Q2", "Q1 vs Q3", "Q1 vs Q4", "Q1 vs Q5", "Q2 vs Q3",
                "Q2 vs Q4", "Q2 vs Q5", "Q3 vs Q4", "Q3 vs Q5", "Q4 vs Q5"]
  {
    var rows := PairTableSpec(obs, m, policy).value;
    assert |rows| == 10 by {
      PairTableLayout(obs, m, policy);
    }
    forall a: nat, b: nat | a < b < 5
      ensures PairIndex(a, b, 5) < 10 && rows[PairIndex(a, b, 5)].comparison == QUINTILE_LABELS[a] + " vs " + QUINTILE_LABELS[b]
    {
      FixedQuintileRow(obs, m, policy, a, b);
    }
    TenLabels(rows);
  }

  /** An error in row i at column j - 1 stays the error while the inner loop runs on. */
  lemma {:induction false} ErrorPersistsWithin(row: RowOf, k: nat, i: nat, j: nat, j2: nat)
    requires Defined(row, k) && i < k && j <= j2 <= k
    requires RowsWithin(row, k, i, j).Err?
    ensures RowsWithin(row, k, i, j2) == RowsWithin(row, k, i, j)
    decreases j2
  {
    if j2 > j {
      ErrorPersistsWithin(row, k, i, j, j2 - 1);
    }
  }

  /** ... and while the outer loop runs on, up to the finished table. */
  lemma {:induction false} ErrorPersistsBefore(row: RowOf, k: nat, i: nat, j: nat, i2: nat)
    requires Defined(row, k) && i < i2 <= k && j <= k
    requires RowsWithin(row, k, i, j).Err?
    ensures RowsBefore(row, k, i2) == RowsWithin(row, k, i, j)
    decreases i2
  {
    if i2 == i + 1 {
      ErrorPersistsWithin(row, k, i, j, k);
    } else {
      ErrorPersistsBefore(row, k, i, j, i2 - 1);
      assert RowsWithin(row, k, i2 - 1, i2) == RowsBefore(row, k, i2 - 1);
      ErrorPersistsWithin(row, k, i2 - 1, i2, k);
    }
  }

  /**
   * The nested loop `for i in range(k): for j in range(i + 1, k)`,
   * appending the row of each pair; the first failing row stops it.
   */
  method BuildRows(row: RowOf, k: nat) returns (table: Result<seq<PairRow>, TableError>)
    requires Defined(row, k)
    ensures table == RowsBefore(row, k, k)
  {
    var rows: seq<PairRow> := [];
    for i := 0 to k
      invariant RowsBefore(row, k, i) == Ok(rows)
    {
      for j := i + 1 to k
        invariant RowsWithin(row, k, i, j) == Ok(rows)
      {
        var r := row(i, j);
        if r.Err? {
          ErrorPersistsBefore(row, k, i, j + 1, k);
          return Err(r.error);
        }
        rows := rows + [r.value];
      }
    }
    return Ok(rows);
  }

  /** The pair table of a matrix, as the scripts build it. */
  method BuildPairTable(obs: seq<Observation>, m: DunnMatrix, policy: DeltaPolicy) returns (table: Result<seq<PairRow>, TableError>)
    requires m.WellFormed()
    ensures table == PairTableSpec(obs, m, policy)
  {
    table := BuildRows(RowFn(obs, m, policy), |m.groups|);
  }
}
