/**
 * The significance policy shared by every script: a p-value is
 * significant when it is strictly below 0.05. Also the rounding that
 * the Phase 1 script applies before it compares.
 */
module Stats {

  /** The fixed threshold; p = 0.05 itself is not significant. */
  const ALPHA: real := 0.05

  predicate Significant(p: real)
  {
    p < ALPHA
  }

  /** The statistic and p-value the Kruskal-Wallis routine returns; an input here. */
  datatype KruskalResult = KruskalResult(h: real, p: real)

  /**
   * The multiple of 1/scale that Python's `round(x, n)` picks for
   * `scale = 10^n`, counted in units of 1/scale: the nearest integer to
   * x * scale, ties to the even one.
   */
  function RoundedUnits(x: real, scale: nat): (n: int)
    requires scale > 0
    ensures -0.5 <= n as real - x * scale as real <= 0.5
    ensures n as real - x * scale as real == 0.5 ==> n % 2 == 0
    ensures n as real - x * scale as real == -0.5 ==> n % 2 == 0
  {
    var s := x * scale as real;
    var f := s.Floor;
    if s - f as real > 0.5 then f + 1
    else if s - f as real < 0.5 then f
    else if f % 2 == 0 then f else f + 1
  }

  /** `round(x, n)` for `scale = 10^n`, computed on exact reals. */
  function RoundHalfEven(x: real, scale: nat): (r: real)
    requires scale > 0
    ensures r * scale as real == RoundedUnits(x, scale) as real
    ensures -0.5 <= (r - x) * scale as real <= 0.5
  {
    RoundedUnits(x, scale) as real / scale as real
  }

  /** `round(p_value, 6)` */
  function Round6(p: real): real
  {
    RoundHalfEven(p, 1000000)
  }

  /** `round(h_stat, 4)` */
  function Round4(h: real): real
  {
    RoundHalfEven(h, 10000)
  }

  /**
   * Comparing the 6-place rounding of p with 0.05 is the same as
   * comparing p itself with 0.0499995: every p in [0.0499995, 0.05)
   * rounds up to 0.05 and fails the gate.
   */
  lemma RoundedGateThreshold(p: real)
    ensures Significant(Round6(p)) <==> p < 0.0499995
  {
    var n := RoundedUnits(p, 1000000);
    assert Round6(p) * 1000000.0 == n as real;
    assert Significant(Round6(p)) <==> n < 50000;
  }

  /** A p-value that the raw comparison calls significant but the rounded gate rejects. */
  lemma RoundedGateDisagrees()
    ensures Significant(0.04999975) && !Significant(Round6(0.04999975))
  {
    RoundedGateThreshold(0.04999975);
  }

  /**
   * The Interpretation entry of a Kruskal-Wallis table: "Significant
   * differences" or "No significant differences", followed by `scope`
   * (" among quintiles" in the two Statistical_analysis scripts, nothing
   * in the Phase 1 script).
   */
  function Interpretation(p: real, scope: string): (text: string)
    ensures text == "Significant differences" + scope <==> Significant(p)
    ensures text == "No significant differences" + scope <==> !Significant(p)
  {
    if p < ALPHA then "Significant differences" + scope
    else
      assert ("No significant differences" + scope)[0] != ("Significant differences" + scope)[0];
      "No significant differences" + scope
  }

  /** The message printed after each Kruskal-Wallis test of the per-function script. */
  function KruskalMessage(column: string, p: real): (text: string)
    ensures text == "Significant differences detected in " + column + ". Post-hoc analysis recommended."
            <==> Significant(p)
    ensures !Significant(p) ==> text == "No significant differences detected in " + column + "."
  {
    if p < ALPHA then "Significant differences detected in " + column + ". Post-hoc analysis recommended."
    else "No significant differences detected in " + column + "."
  }
}
