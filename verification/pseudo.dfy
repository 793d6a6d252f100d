/** Pseudo-counts: zero frequencies are replaced by a floor value, paid for
    evenly by the non-zero cells of the same position (scoring.py,
    add_pseudo_counts). */
module PseudoCounts {
  import opened Dna
  import opened Counts
  import opened Frequencies

  /** The floor value used when the caller gives none. */
  const DefaultLow: real := 0.1

  /** 1 for a frequency of exactly zero, 0 otherwise. */
  function ZeroIndicator(x: real): nat {
    if x == 0.0 then 1 else 0
  }

  /** zero_count: how many of the four bases have frequency exactly zero at position `i`. */
  function ZeroCount(f: Matrix<real>, i: int): nat
    requires f.HasColumn(i)
  {
    ZeroIndicator(f.a[i]) + ZeroIndicator(f.t[i]) + ZeroIndicator(f.c[i]) + ZeroIndicator(f.g[i])
  }

  /** diff: the mass handed to the zero cells, shared out over the
      `|Bases| - zero_count` non-zero cells. */
  function Diff(f: Matrix<real>, i: int, low: real): real
    requires f.HasColumn(i) && ZeroCount(f, i) < |Bases|
  {
    (ZeroCount(f, i) as real * low) / (|Bases| - ZeroCount(f, i)) as real
  }

  /** What the source demands of its input: the motif length is the length of
      the A row, every other row reaches that far, and no position has all
      four frequencies zero (else the division by nonzero_count fails). */
  predicate Smoothable(f: Matrix<real>) {
    && |f.t| >= |f.a| && |f.c| >= |f.a| && |f.g| >= |f.a|
    && forall i :: 0 <= i < |f.a| ==> ZeroCount(f, i) < |Bases|
  }

  /** The cell rule at every position below the motif length: a zero cell
      holds `low`, a non-zero cell has lost its position's `Diff`. */
  predicate Redistributed(f: Matrix<real>, p: Matrix<real>, low: real)
    requires Smoothable(f) && p.Shaped(|f.a|)
  {
    forall b: Base, i :: 0 <= i < |f.a| ==>
      (f.Row(b)[i] == 0.0 ==> p.Row(b)[i] == low) &&
      (f.Row(b)[i] != 0.0 ==> p.Row(b)[i] == f.Row(b)[i] - Diff(f, i, low))
  }

  function Smooth(x: real, diff: real, low: real): real {
    if x == 0.0 then low else x - diff
  }

  /** The smoothed row of a base whose frequencies are `row`. */
  function SmoothRow(f: Matrix<real>, row: seq<real>, low: real): (r: seq<real>)
    requires Smoothable(f) && |row| >= |f.a|
    ensures |r| == |f.a|
  {
    seq(|f.a|, i requires 0 <= i < |f.a| => Smooth(row[i], Diff(f, i, low), low))
  }

  /** add_pseudo_counts: every row gets the motif length; a zero cell becomes
      `low`; a non-zero cell loses `Diff`, whose total over the non-zero cells
      equals what the zero cells gained; so every position keeps its mass. */
  function AddPseudoCounts(f: Matrix<real>, low: real): (p: Matrix<real>)
    requires Smoothable(f)
    ensures p.Shaped(|f.a|)
    ensures Redistributed(f, p, low)
    ensures forall i :: 0 <= i < |f.a| ==> Mass(p, i) == Mass(f, i)
  {
    var smoothed := Matrix(SmoothRow(f, f.a, low), SmoothRow(f, f.t, low),
                           SmoothRow(f, f.c, low), SmoothRow(f, f.g, low));
    SmoothedRows(f, low, smoothed);
    SmoothedMass(f, low, smoothed);
    smoothed
  }

  lemma SmoothedRows(f: Matrix<real>, low: real, p: Matrix<real>)
    requires Smoothable(f)
    requires p == Matrix(SmoothRow(f, f.a, low), SmoothRow(f, f.t, low),
                         SmoothRow(f, f.c, low), SmoothRow(f, f.g, low))
    ensures Redistributed(f, p, low)
  {
  }

  lemma SmoothedMass(f: Matrix<real>, low: real, p: Matrix<real>)
    requires Smoothable(f)
    requires p == Matrix(SmoothRow(f, f.a, low), SmoothRow(f, f.t, low),
                         SmoothRow(f, f.c, low), SmoothRow(f, f.g, low))
    ensures forall i :: 0 <= i < |f.a| ==> Mass(p, i) == Mass(f, i)
  {
    forall i | 0 <= i < |f.a|
      ensures Mass(p, i) == Mass(f, i)
    {
      RedistributionKeepsMass(f, p, i, low);
    }
  }

  /** At one position: if zero cells become `low` and the others lose `Diff`,
      the four cells still add up to what they did before. */
  lemma RedistributionKeepsMass(f: Matrix<real>, p: Matrix<real>, i: int, low: real)
    requires f.HasColumn(i) && p.HasColumn(i) && ZeroCount(f, i) < |Bases|
    requires p.a[i] == Smooth(f.a[i], Diff(f, i, low), low)
    requires p.t[i] == Smooth(f.t[i], Diff(f, i, low), low)
    requires p.c[i] == Smooth(f.c[i], Diff(f, i, low), low)
    requires p.g[i] == Smooth(f.g[i], Diff(f, i, low), low)
    ensures Mass(p, i) == Mass(f, i)
  {
  }

  /** A position with no zero cell passes through unchanged, so a matrix of
      uniform width without zero entries is a fixed point. */
  lemma {:induction false} NoZerosUnchanged(f: Matrix<real>, low: real)
    requires f.Shaped(|f.a|)
    requires forall b: Base, i :: 0 <= i < |f.a| ==> f.Row(b)[i] != 0.0
    ensures Smoothable(f)
    ensures AddPseudoCounts(f, low) == f
  {
    assert forall i :: 0 <= i < |f.a| ==> ZeroCount(f, i) == 0 by {
      forall i | 0 <= i < |f.a|
        ensures ZeroCount(f, i) == 0
      {
        assert f.Row(A)[i] != 0.0 && f.Row(T)[i] != 0.0;
        assert f.Row(C)[i] != 0.0 && f.Row(G)[i] != 0.0;
      }
    }
    var p := AddPseudoCounts(f, low);
    forall b: Base
      ensures p.Row(b) == f.Row(b)
    {
      forall i | 0 <= i < |f.a|
        ensures p.Row(b)[i] == f.Row(b)[i]
      {
        assert Diff(f, i, low) == 0.0;
      }
    }
    assert p.Row(A) == f.Row(A) && p.Row(T) == f.Row(T);
    assert p.Row(C) == f.Row(C) && p.Row(G) == f.Row(G);
  }

  /** Every matrix built from instances can be pseudo-counted, and the result
      is again a probability distribution at every position. */
  lemma {:induction false} FrequencyMatrixSmoothable(insts: seq<seq<Base>>, low: real)
    requires |insts| > 0 && SameLength(insts) && |insts[0]| > 0
    ensures Smoothable(FrequencyMatrix(insts))
    ensures forall i :: 0 <= i < |insts[0]| ==> Mass(AddPseudoCounts(FrequencyMatrix(insts), low), i) == 1.0
  {
    var f := FrequencyMatrix(insts);
    forall i | 0 <= i < |f.a|
      ensures ZeroCount(f, i) < |Bases|
    {
      assert Mass(f, i) == 1.0;
    }
  }

  /** Positivity holds only when every non-zero cell exceeds its position's `Diff`. */
  lemma PositiveWhenAboveDiff(f: Matrix<real>, low: real)
    requires Smoothable(f) && low > 0.0
    requires forall b: Base, i :: 0 <= i < |f.a| && f.Row(b)[i] != 0.0 ==> f.Row(b)[i] > Diff(f, i, low)
    ensures forall b: Base, i :: 0 <= i < |f.a| ==> AddPseudoCounts(f, low).Row(b)[i] > 0.0
  {
  }

  /** Without that condition a cell can end at zero or below: a column
      (0.9, 0.1, 0, 0) sends 0.1 to 0, and (0.95, 0.05, 0, 0) sends 0.05 below 0. */
  lemma SmoothingCanLeaveZeroOrNegative()
    ensures AddPseudoCounts(Matrix([0.9], [0.1], [0.0], [0.0]), DefaultLow).t[0] == 0.0
    ensures AddPseudoCounts(Matrix([0.95], [0.05], [0.0], [0.0]), DefaultLow).t[0] < 0.0
  {
  }

  /** The example from the documentation, with the default floor 0.1. */
  lemma AddPseudoCountsExample()
    ensures AddPseudoCounts(Matrix([1.0, 0.0], [0.0, 0.5], [0.0, 0.5], [0.0, 0.0]), DefaultLow)
         == Matrix([0.7, 0.1], [0.1, 0.4], [0.1, 0.4], [0.1, 0.1])
  {
  }
}
