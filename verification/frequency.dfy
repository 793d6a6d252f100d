/** The frequency matrix: counts divided by the number of instances
    (scoring.py, count_to_frequency_matrix and get_frequency_matrix). */
module Frequencies {
  import opened Dna
  import opened Counts

  /** One row of counts, each divided by `n`. */
  function Divide(row: seq<int>, n: int): (r: seq<real>)
    requires n != 0
    ensures |r| == |row|
    ensures forall i :: 0 <= i < |row| ==> r[i] * (n as real) == row[i] as real
  {
    seq(|row|, i requires 0 <= i < |row| => row[i] as real / n as real)
  }

  /** count_to_frequency_matrix: the instance count is the column total at
      position 0, so every row must have a position 0 and that total must be
      non-zero. Each row keeps its length, and multiplying an entry back by
      the instance count gives the original count. */
  function CountToFrequency(m: Matrix<int>): (f: Matrix<real>)
    requires m.HasColumn(0) && Total(m, 0) != 0
    ensures forall b: Base :: |f.Row(b)| == |m.Row(b)|
    ensures forall b: Base, i :: 0 <= i < |m.Row(b)| ==>
      f.Row(b)[i] * (Total(m, 0) as real) == m.Row(b)[i] as real
  {
    var n := Total(m, 0);
    Matrix(Divide(m.a, n), Divide(m.t, n), Divide(m.c, n), Divide(m.g, n))
  }

  /** A column of the frequency matrix adds up to that column's count total
      over the instance count. */
  lemma FrequencyColumnMass(m: Matrix<int>, i: int)
    requires m.HasColumn(0) && Total(m, 0) != 0 && m.HasColumn(i)
    ensures Mass(CountToFrequency(m), i) == Total(m, i) as real / Total(m, 0) as real
  {
  }

  /** get_frequency_matrix: the count matrix of the instances, normalised.
      Indexing position 0 needs a non-empty motif. Every entry is the
      fraction of instances carrying that base there, so it lies in [0,1],
      and every column adds up to exactly one. */
  function FrequencyMatrix(insts: seq<seq<Base>>): (f: Matrix<real>)
    requires |insts| > 0 && SameLength(insts) && |insts[0]| > 0
    ensures f.Shaped(|insts[0]|)
    ensures forall b: Base, i :: 0 <= i < |insts[0]| ==>
      f.Row(b)[i] == Occurrences(insts, b, i) as real / |insts| as real
    ensures forall i :: 0 <= i < |insts[0]| ==> Mass(f, i) == 1.0
    ensures InUnit(f)
  {
    var m := CountMatrix(insts);
    var f := CountToFrequency(m);
    FrequencyMatrixFacts(insts, m, f);
    f
  }

  lemma FrequencyMatrixFacts(insts: seq<seq<Base>>, m: Matrix<int>, f: Matrix<real>)
    requires |insts| > 0 && SameLength(insts) && |insts[0]| > 0
    requires m == CountMatrix(insts) && f == CountToFrequency(m)
    ensures forall b: Base, i :: 0 <= i < |insts[0]| ==>
      f.Row(b)[i] == Occurrences(insts, b, i) as real / |insts| as real
    ensures forall i :: 0 <= i < |insts[0]| ==> Mass(f, i) == 1.0
    ensures InUnit(f)
  {
    FrequenciesAreFractions(insts, m, f);
    FrequencyColumnsAddUp(insts, m, f);
    FrequenciesInUnit(insts, m, f);
  }

  lemma FrequenciesAreFractions(insts: seq<seq<Base>>, m: Matrix<int>, f: Matrix<real>)
    requires |insts| > 0 && SameLength(insts) && |insts[0]| > 0
    requires m == CountMatrix(insts) && f == CountToFrequency(m)
    ensures forall b: Base, i :: 0 <= i < |insts[0]| ==>
      f.Row(b)[i] == Occurrences(insts, b, i) as real / |insts| as real
  {
  }

  lemma FrequencyColumnsAddUp(insts: seq<seq<Base>>, m: Matrix<int>, f: Matrix<real>)
    requires |insts| > 0 && SameLength(insts) && |insts[0]| > 0
    requires m == CountMatrix(insts) && f == CountToFrequency(m)
    ensures forall i :: 0 <= i < |insts[0]| ==> Mass(f, i) == 1.0
  {
    forall i | 0 <= i < |insts[0]|
      ensures Mass(f, i) == 1.0
    {
      FrequencyColumnMass(m, i);
      assert Total(m, i) == |insts| && Total(m, 0) == |insts|;
      WholeOverWhole(|insts| as real);
    }
  }

  lemma FrequenciesInUnit(insts: seq<seq<Base>>, m: Matrix<int>, f: Matrix<real>)
    requires |insts| > 0 && SameLength(insts) && |insts[0]| > 0
    requires m == CountMatrix(insts) && f == CountToFrequency(m)
    ensures InUnit(f)
  {
    forall b: Base, i | 0 <= i < |f.Row(b)|
      ensures 0.0 <= f.Row(b)[i] <= 1.0
    {
      FrequencyOfCount(insts, m, b, i);
      FractionInUnit(m.Row(b)[i], |insts|);
    }
  }

  lemma FrequencyOfCount(insts: seq<seq<Base>>, m: Matrix<int>, b: Base, i: int)
    requires |insts| > 0 && SameLength(insts) && 0 <= i < |insts[0]|
    requires m == CountMatrix(insts)
    ensures CountToFrequency(m).Row(b)[i] == m.Row(b)[i] as real / |insts| as real
    ensures m.Row(b)[i] == Occurrences(insts, b, i) && 0 <= m.Row(b)[i] <= |insts|
  {
  }


  lemma WholeOverWhole(n: real)
    requires n != 0.0
    ensures n / n == 1.0
  {
  }

  lemma FractionInUnit(k: int, n: int)
    requires 0 <= k <= n && 0 < n
    ensures 0.0 <= k as real / n as real <= 1.0
  {
  }

  /** The example from the documentation. */
  lemma CountToFrequencyExample()
    ensures CountToFrequency(Matrix([2, 0], [0, 1], [0, 1], [0, 0]))
         == Matrix([1.0, 0.0], [0.0, 0.5], [0.0, 0.5], [0.0, 0.0])
  {
  }
}
