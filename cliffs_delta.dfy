/**
 * Cliff's delta as the scripts compute it by hand: every pair of the
 * Cartesian product of two samples is visited in the order of the list
 * comprehension (first sample outer, second sample inner); pairs whose
 * first value is larger count +1, pairs whose first value is smaller
 * count -1, ties count for neither, and the difference is divided by
 * the number of pairs.
 */
module Cliffs {

  type Pair = (real, real)

  /** The pairs (x, y) for every y, in the order of `ys`. */
  function Row(x: real, ys: seq<real>): (r: seq<Pair>)
    ensures |r| == |ys|
    ensures forall j :: 0 <= j < |ys| ==> r[j] == (x, ys[j])
  {
    if ys == [] then [] else [(x, ys[0])] + Row(x, ys[1..])
  }

  /** The pairs (y, x) for every y, in the order of `ys`. */
  function Column(ys: seq<real>, x: real): (r: seq<Pair>)
    ensures |r| == |ys|
    ensures forall j :: 0 <= j < |ys| ==> r[j] == (ys[j], x)
  {
    if ys == [] then [] else [(ys[0], x)] + Column(ys[1..], x)
  }

  /** `[(x1, x2) for x1 in xs for x2 in ys]`. */
  function AllPairs(xs: seq<real>, ys: seq<real>): seq<Pair>
  {
    if xs == [] then [] else Row(xs[0], ys) + AllPairs(xs[1..], ys)
  }

  /** `sum(1 for x1, x2 in pairs if x1 > x2)` */
  function CountGreater(ps: seq<Pair>): nat
  {
    if ps == [] then 0 else (if ps[0].0 > ps[0].1 then 1 else 0) + CountGreater(ps[1..])
  }

  /** `sum(1 for x1, x2 in pairs if x1 < x2)` */
  function CountLess(ps: seq<Pair>): nat
  {
    if ps == [] then 0 else (if ps[0].0 < ps[0].1 then 1 else 0) + CountLess(ps[1..])
  }

  /** Number of pairs whose first value is larger (`n_concordant`). */
  function Concordant(xs: seq<real>, ys: seq<real>): nat
  {
    CountGreater(AllPairs(xs, ys))
  }

  /** Number of pairs whose first value is smaller (`n_discordant`). */
  function Discordant(xs: seq<real>, ys: seq<real>): nat
  {
    CountLess(AllPairs(xs, ys))
  }

  /**
   * `(n_concordant - n_discordant) / (n1 * n2)`. Python raises a division
   * by zero when either sample is empty, so both must be non-empty.
   */
  function CliffsDelta(xs: seq<real>, ys: seq<real>): (d: real)
    requires |xs| > 0 && |ys| > 0
  {
    (Concordant(xs, ys) - Discordant(xs, ys)) as real / (|xs| * |ys|) as real
  }

  // ---------------------------------------------------------------------
  // The product is the full Cartesian product, in comprehension order.
  // ---------------------------------------------------------------------

  /** The product has |xs| * |ys| pairs. */
  lemma {:induction false} AllPairsLength(xs: seq<real>, ys: seq<real>)
    ensures |AllPairs(xs, ys)| == |xs| * |ys|
  {
    if xs != [] {
      AllPairsLength(xs[1..], ys);
      assert |xs| * |ys| == |ys| + (|xs| - 1) * |ys|;
    }
  }

  lemma {:induction false} AllPairsAt(xs: seq<real>, ys: seq<real>, i: nat, j: nat)
    requires i < |xs| && j < |ys|
    ensures i * |ys| + j < |AllPairs(xs, ys)|
    ensures AllPairs(xs, ys)[i * |ys| + j] == (xs[i], ys[j])
  {
    var m := |ys|;
    AllPairsLength(xs, ys);
    assert i * m + j < |xs| * m by {
      assert i * m <= (|xs| - 1) * m by { MulLe(i, |xs| - 1, m); }
      assert (|xs| - 1) * m + m == |xs| * m;
    }
    if i > 0 {
      AllPairsAt(xs[1..], ys, i - 1, j);
      assert i * m + j == m + ((i - 1) * m + j);
      assert AllPairs(xs, ys) == Row(xs[0], ys) + AllPairs(xs[1..], ys);
    }
  }

  lemma MulLe(a: nat, b: nat, m: nat)
    requires a <= b
    ensures a * m <= b * m
  {
  }

  /** Every pair of the product is (xs[i], ys[j]) for some i and j. */
  lemma {:induction false} AllPairsMember(xs: seq<real>, ys: seq<real>, k: nat) returns (i: nat, j: nat)
    requires k < |AllPairs(xs, ys)|
    ensures i < |xs| && j < |ys| && AllPairs(xs, ys)[k] == (xs[i], ys[j])
  {
    var r := Row(xs[0], ys);
    var rest := AllPairs(xs[1..], ys);
    assert AllPairs(xs, ys) == r + rest;
    if k < |ys| {
      i, j := 0, k;
      assert (r + rest)[k] == r[k];
    } else {
      var i', j' := AllPairsMember(xs[1..], ys, k - |ys|);
      i, j := i' + 1, j';
      assert (r + rest)[k] == rest[k - |ys|];
      assert xs[1..][i'] == xs[i];
    }
  }

  // ---------------------------------------------------------------------
  // Counting facts
  // ---------------------------------------------------------------------

  lemma {:induction false} CountsBounded(ps: seq<Pair>)
    ensures CountGreater(ps) + CountLess(ps) <= |ps|
  {
    if ps != [] { CountsBounded(ps[1..]); }
  }

  lemma {:induction false} CountGreaterAppend(a: seq<Pair>, b: seq<Pair>)
    ensures CountGreater(a + b) == CountGreater(a) + CountGreater(b)
  {
    if a != [] {
      assert (a + b)[1..] == a[1..] + b;
      CountGreaterAppend(a[1..], b);
    } else {
      assert a + b == b;
    }
  }

  lemma {:induction false} CountLessAppend(a: seq<Pair>, b: seq<Pair>)
    ensures CountLess(a + b) == CountLess(a) + CountLess(b)
  {
    if a != [] {
      assert (a + b)[1..] == a[1..] + b;
      CountLessAppend(a[1..], b);
    } else {
      assert a + b == b;
    }
  }

  /** Every pair is concordant exactly when the concordant count is the number of pairs. */
  lemma {:induction false} CountGreaterAll(ps: seq<Pair>)
    ensures CountGreater(ps) == |ps| <==> forall k :: 0 <= k < |ps| ==> ps[k].0 > ps[k].1
  {
    if ps != [] {
      CountGreaterAll(ps[1..]);
      CountsBounded(ps[1..]);
      assert forall k :: 1 <= k < |ps| ==> ps[k] == ps[1..][k - 1];
    }
  }

  /** Splitting the product of `ys` with `[x] + r` by its first column. */
  lemma {:induction false} CountGreaterByColumn(ys: seq<real>, x: real, r: seq<real>)
    ensures CountGreater(AllPairs(ys, [x] + r))
         == CountGreater(Column(ys, x)) + CountGreater(AllPairs(ys, r))
  {
    if ys != [] {
      var y, t := ys[0], ys[1..];
      CountGreaterByColumn(t, x, r);
      assert Row(y, [x] + r) == [(y, x)] + Row(y, r);
      calc {
        CountGreater(AllPairs(ys, [x] + r));
        { CountGreaterAppend(Row(y, [x] + r), AllPairs(t, [x] + r)); }
        CountGreater(Row(y, [x] + r)) + CountGreater(AllPairs(t, [x] + r));
        { CountGreaterAppend([(y, x)], Row(y, r)); }
        CountGreater([(y, x)]) + CountGreater(Row(y, r)) + CountGreater(Column(t, x)) + CountGreater(AllPairs(t, r));
        { CountGreaterAppend(Row(y, r), AllPairs(t, r)); }
        CountGreater([(y, x)]) + CountGreater(Column(t, x)) + CountGreater(AllPairs(ys, r));
        { assert Column(ys, x) == [(y, x)] + Column(t, x); CountGreaterAppend([(y, x)], Column(t, x)); }
        CountGreater(Column(ys, x)) + CountGreater(AllPairs(ys, r));
      }
    }
  }

  lemma {:induction false} ColumnRowCount(ys: seq<real>, x: real)
    ensures CountGreater(Column(ys, x)) == CountLess(Row(x, ys))
  {
    if ys != [] { ColumnRowCount(ys[1..], x); }
  }

  /** Exchanging the samples exchanges the concordant and discordant counts. */
  lemma {:induction false} ConcordantSwap(xs: seq<real>, ys: seq<real>)
    ensures Concordant(ys, xs) == Discordant(xs, ys)
  {
    if xs == [] {
      assert AllPairs(ys, xs) == [] by { AllPairsLength(ys, xs); }
    } else {
      var x, r := xs[0], xs[1..];
      assert xs == [x] + r;
      ConcordantSwap(r, ys);
      CountGreaterByColumn(ys, x, r);
      ColumnRowCount(ys, x);
      CountLessAppend(Row(x, ys), AllPairs(r, ys));
    }
  }

  // ---------------------------------------------------------------------
  // Properties of the effect size
  // ---------------------------------------------------------------------

  /** Concordant and discordant pairs never exceed all pairs, so delta is in [-1, 1]. */
  lemma DeltaRange(xs: seq<real>, ys: seq<real>)
    requires |xs| > 0 && |ys| > 0
    ensures Concordant(xs, ys) + Discordant(xs, ys) <= |xs| * |ys|
    ensures -1.0 <= CliffsDelta(xs, ys) <= 1.0
  {
    CountsBounded(AllPairs(xs, ys));
    AllPairsLength(xs, ys);
    var n := (|xs| * |ys|) as real;
    var c, l := Concordant(xs, ys) as real, Discordant(xs, ys) as real;
    assert n > 0.0;
    assert -n <= c - l <= n;
    DivBounds(c - l, n);
  }

  lemma DivBounds(a: real, n: real)
    requires n > 0.0 && -n <= a <= n
    ensures -1.0 <= a / n <= 1.0
  {
  }

  /** Negative means the first sample is lower in more pairs; positive, higher. */
  lemma DeltaSign(xs: seq<real>, ys: seq<real>)
    requires |xs| > 0 && |ys| > 0
    ensures CliffsDelta(xs, ys) < 0.0 <==> Concordant(xs, ys) < Discordant(xs, ys)
    ensures CliffsDelta(xs, ys) > 0.0 <==> Concordant(xs, ys) > Discordant(xs, ys)
    ensures CliffsDelta(xs, ys) == 0.0 <==> Concordant(xs, ys) == Discordant(xs, ys)
  {
    var n := (|xs| * |ys|) as real;
    assert n > 0.0;
    SignOfQuotient((Concordant(xs, ys) - Discordant(xs, ys)) as real, n);
  }

  lemma SignOfQuotient(a: real, n: real)
    requires n > 0.0
    ensures a / n < 0.0 <==> a < 0.0
    ensures a / n > 0.0 <==> a > 0.0
    ensures a / n == 0.0 <==> a == 0.0
  {
  }

  /** Swapping the two samples negates delta. */
  lemma DeltaAntisymmetric(xs: seq<real>, ys: seq<real>)
    requires |xs| > 0 && |ys| > 0
    ensures CliffsDelta(ys, xs) == -CliffsDelta(xs, ys)
  {
    ConcordantSwap(xs, ys);
    ConcordantSwap(ys, xs);
    assert |ys| * |xs| == |xs| * |ys|;
  }

  /** A sample compared with itself has delta 0. */
  lemma DeltaSelfZero(xs: seq<real>)
    requires |xs| > 0
    ensures CliffsDelta(xs, xs) == 0.0
  {
    DeltaAntisymmetric(xs, xs);
  }

  /** Delta is exactly 1 when, and only when, every first value exceeds every second value. */
  lemma DeltaOneIffDominates(xs: seq<real>, ys: seq<real>)
    requires |xs| > 0 && |ys| > 0
    ensures CliffsDelta(xs, ys) == 1.0
        <==> forall i, j :: 0 <= i < |xs| && 0 <= j < |ys| ==> xs[i] > ys[j]
  {
    var ps := AllPairs(xs, ys);
    var n := |xs| * |ys|;
    AllPairsLength(xs, ys);
    CountsBounded(ps);
    CountGreaterAll(ps);
    if forall i, j :: 0 <= i < |xs| && 0 <= j < |ys| ==> xs[i] > ys[j] {
      forall k | 0 <= k < |ps| ensures ps[k].0 > ps[k].1 {
        var i, j := AllPairsMember(xs, ys, k);
      }
      assert Concordant(xs, ys) == n;
      assert Discordant(xs, ys) == 0;
      QuotientOne(n as real);
    }
    if CliffsDelta(xs, ys) == 1.0 {
      QuotientIsOne((Concordant(xs, ys) - Discordant(xs, ys)) as real, n as real);
      assert Concordant(xs, ys) == n;
      forall i, j | 0 <= i < |xs| && 0 <= j < |ys| ensures xs[i] > ys[j] {
        AllPairsAt(xs, ys, i, j);
      }
    }
  }

  lemma QuotientOne(n: real)
    requires n > 0.0
    ensures (n - 0.0) / n == 1.0
  {
  }

  lemma QuotientIsOne(a: real, n: real)
    requires n > 0.0 && a / n == 1.0
    ensures a == n
  {
  }

  /** Delta is exactly -1 when, and only when, every first value is below every second value. */
  lemma DeltaMinusOneIffDominated(xs: seq<real>, ys: seq<real>)
    requires |xs| > 0 && |ys| > 0
    ensures CliffsDelta(xs, ys) == -1.0
        <==> forall i, j :: 0 <= i < |xs| && 0 <= j < |ys| ==> xs[i] < ys[j]
  {
    DeltaAntisymmetric(xs, ys);
    DeltaOneIffDominates(ys, xs);
    if forall j, i :: 0 <= j < |ys| && 0 <= i < |xs| ==> ys[j] > xs[i] {
      assert forall i, j :: 0 <= i < |xs| && 0 <= j < |ys| ==> xs[i] < ys[j];
    }
  }

  /** The lowest and highest of five groups of five latencies 1 and 100: delta is -1. */
  lemma LowestVersusHighestQuintile()
    ensures CliffsDelta([1.0, 1.0, 1.0, 1.0, 1.0], [100.0, 100.0, 100.0, 100.0, 100.0]) == -1.0
  {
    DeltaMinusOneIffDominated([1.0, 1.0, 1.0, 1.0, 1.0], [100.0, 100.0, 100.0, 100.0, 100.0]);
  }
}
