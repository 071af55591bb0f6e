/**
 * The shape shared by the report loops of the scripts: each step (a
 * factor, a feature) yields the pages or sections it adds, they are
 * appended in turn, and the first step that fails ends the loop with its
 * error. The lemmas here hold whatever the steps compute.
 */
module Steps {
  import opened Wrappers

  /** The output once steps 0..n-1 have run. */
  function Concat<T, E>(outs: seq<Result<seq<T>, E>>, n: nat): Result<seq<T>, E>
    requires n <= |outs|
  {
    if n == 0 then Ok([])
    else
      match Concat(outs, n - 1)
      case Err(e) => Err(e)
      case Ok(xs) =>
        match outs[n - 1]
        case Err(e) => Err(e)
        case Ok(ys) => Ok(xs + ys)
  }

  /** Once a step has failed, later steps do not change the outcome. */
  lemma {:induction false} ConcatErrorPersists<T, E>(outs: seq<Result<seq<T>, E>>, n: nat, n2: nat)
    requires n <= n2 <= |outs| && Concat(outs, n).Err?
    ensures Concat(outs, n2) == Concat(outs, n)
    decreases n2
  {
    if n2 > n {
      ConcatErrorPersists(outs, n, n2 - 1);
    }
  }

  /** One more step: its output is appended, or its error is the outcome of the whole loop. */
  lemma ConcatStep<T, E>(outs: seq<Result<seq<T>, E>>, i: nat, acc: seq<T>)
    requires i < |outs| && Concat(outs, i) == Ok(acc)
    ensures outs[i].Ok? ==> Concat(outs, i + 1) == Ok(acc + outs[i].value)
    ensures outs[i].Err? ==> Concat(outs, |outs|) == Err(outs[i].error)
  {
    if outs[i].Err? {
      ConcatErrorPersists(outs, i + 1, |outs|);
    }
  }

  /**
   * The loop succeeds exactly when every step does; when it fails, its
   * error is the error of the first step that failed.
   */
  lemma {:induction false} ConcatOutcome<T, E>(outs: seq<Result<seq<T>, E>>, n: nat)
    requires n <= |outs|
    ensures Concat(outs, n).Ok? <==> forall i :: 0 <= i < n ==> outs[i].Ok?
    ensures Concat(outs, n).Err? ==>
              exists i :: 0 <= i < n && outs[i] == Err(Concat(outs, n).error)
                          && forall i' :: 0 <= i' < i ==> outs[i'].Ok?
  {
    if n > 0 {
      ConcatOutcome(outs, n - 1);
      if Concat(outs, n - 1).Ok? && outs[n - 1].Err? {
        assert outs[n - 1] == Err(Concat(outs, n).error);
      }
    }
  }

  /** Every output of a successful loop is made of the outputs of its steps, in order. */
  lemma {:induction false} ConcatLength<T, E>(outs: seq<Result<seq<T>, E>>, n: nat, sizes: seq<nat>)
    requires n <= |outs| && |sizes| == |outs|
    requires forall i :: 0 <= i < |outs| && outs[i].Ok? ==> |outs[i].value| == sizes[i]
    requires Concat(outs, n).Ok?
    ensures |Concat(outs, n).value| == Sum(sizes, n)
  {
    if n > 0 {
      ConcatLength(outs, n - 1, sizes);
    }
  }

  /** sizes[0] + ... + sizes[n-1]. */
  function Sum(sizes: seq<nat>, n: nat): nat
    requires n <= |sizes|
  {
    if n == 0 then 0 else Sum(sizes, n - 1) + sizes[n - 1]
  }
}
