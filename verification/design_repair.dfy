/** The repair every optimisation problem of the repository applies to a
    candidate before it is simulated (Optimizer.py, both problems of
    archive/Optimizer.py, archive/OptimizerPythonScript.py): round the two
    stiffener counts to the nearest integer and keep the longitudinal
    stiffener height strictly below the transverse stiffener height. */
module DesignRepair {

  /** Components of the 11-value design vector. */
  const NVar: nat := 11
  const TransverseCount: nat := 0
  const LongitudinalCount: nat := 1
  const TransverseHeight: nat := 3
  const LongitudinalHeight: nat := 7

  /** The amount the longitudinal height is pulled below the transverse one. */
  const ClampGap: real := 0.0001

  predicate IsIntegral(x: real) {
    x == x.Floor as real
  }

  /** Python's `round(x, 0)` on a float: the nearest integer, ties to the even one. */
  function RoundHalfEven(x: real): (r: int)
    ensures -0.5 <= r as real - x <= 0.5
    ensures (r as real - x == 0.5 || r as real - x == -0.5) ==> r % 2 == 0
  {
    var f := x.Floor;
    var d := x - f as real;
    if d < 0.5 then f
    else if d > 0.5 then f + 1
    else if f % 2 == 0 then f else f + 1
  }

  /** Round the counts, clamp the longitudinal height; nothing else moves. */
  function Repair(x: seq<real>): (r: seq<real>)
    requires |x| == NVar
    ensures |r| == NVar
    ensures r[TransverseCount] == RoundHalfEven(x[TransverseCount]) as real
    ensures r[LongitudinalCount] == RoundHalfEven(x[LongitudinalCount]) as real
    ensures forall i :: 2 <= i < NVar && i != LongitudinalHeight ==> r[i] == x[i]
    ensures x[LongitudinalHeight] < x[TransverseHeight] ==> r[LongitudinalHeight] == x[LongitudinalHeight]
    ensures x[LongitudinalHeight] >= x[TransverseHeight] ==> r[LongitudinalHeight] == x[TransverseHeight] - ClampGap
    ensures r[LongitudinalHeight] < r[TransverseHeight]
  {
    var rounded := x[TransverseCount := RoundHalfEven(x[TransverseCount]) as real]
                    [LongitudinalCount := RoundHalfEven(x[LongitudinalCount]) as real];
    if rounded[LongitudinalHeight] >= rounded[TransverseHeight] then
      rounded[LongitudinalHeight := rounded[TransverseHeight] - ClampGap]
    else rounded
  }

  lemma RoundIntegral(n: int)
    ensures RoundHalfEven(n as real) == n
  {
  }

  /** A repaired vector has integral counts and the heights in order. */
  predicate Repaired(r: seq<real>)
    requires |r| == NVar
  {
    IsIntegral(r[TransverseCount]) && IsIntegral(r[LongitudinalCount])
    && r[LongitudinalHeight] < r[TransverseHeight]
  }

  /** Repair yields a repaired vector, and leaves a repaired vector alone:
      applying it twice is applying it once. */
  lemma RepairIdempotent(x: seq<real>)
    requires |x| == NVar
    ensures Repaired(Repair(x))
    ensures Repaired(x) ==> Repair(x) == x
    ensures Repair(Repair(x)) == Repair(x)
  {
    var r := Repair(x);
    RoundIntegral(RoundHalfEven(x[TransverseCount]));
    RoundIntegral(RoundHalfEven(x[LongitudinalCount]));
    if Repaired(x) {
      RoundIntegral(x[TransverseCount].Floor);
      RoundIntegral(x[LongitudinalCount].Floor);
    }
  }

  // ---------------------------------------------------------------------------
  // Bounds

  datatype Bounds = Bounds(lower: seq<real>, upper: seq<real>)
  {
    /** The shape the repair relies on: integral count bounds, and room for
        the clamped height above its own lower bound. */
    predicate WellFormed() {
      && |lower| == NVar && |upper| == NVar
      && IsIntegral(lower[TransverseCount]) && IsIntegral(upper[TransverseCount])
      && IsIntegral(lower[LongitudinalCount]) && IsIntegral(upper[LongitudinalCount])
      && lower[LongitudinalHeight] <= lower[TransverseHeight] - ClampGap
    }

    predicate Contains(x: seq<real>) {
      |x| == NVar && |lower| == NVar && |upper| == NVar
      && forall i :: 0 <= i < NVar ==> lower[i] <= x[i] <= upper[i]
    }
  }

  lemma {:induction false} RoundWithin(x: real, lo: real, hi: real)
    requires IsIntegral(lo) && IsIntegral(hi) && lo <= x <= hi
    ensures lo <= RoundHalfEven(x) as real <= hi
  {
    var f := x.Floor;
    assert lo.Floor <= f;
    if x < hi {
      assert f < hi.Floor;
    } else {
      RoundIntegral(hi.Floor);
    }
  }

  /** Repair keeps a vector inside any well-formed box. */
  lemma {:induction false} RepairStaysInBounds(b: Bounds, x: seq<real>)
    requires b.WellFormed() && b.Contains(x)
    ensures b.Contains(Repair(x))
  {
    var r := Repair(x);
    RoundWithin(x[TransverseCount], b.lower[TransverseCount], b.upper[TransverseCount]);
    RoundWithin(x[LongitudinalCount], b.lower[LongitudinalCount], b.upper[LongitudinalCount]);
    forall i | 0 <= i < NVar
      ensures b.lower[i] <= r[i] <= b.upper[i]
    {
      if i == LongitudinalHeight && x[LongitudinalHeight] >= x[TransverseHeight] {
        assert r[i] == x[TransverseHeight] - ClampGap;
      }
    }
  }
}
